/**
 The shared bound on uncompressed layer bytes (`BoundedHashReader` in scripts/oci_artifact.py).
 */
module BoundedReader {
  import opened Outcomes

  const BLOCK := 1024 * 1024

  /** The two-element list `budget`: bytes read so far over all layers, and their limit. */
  class Meter {
    var used: nat
    const limit: nat

    constructor (limit: nat)
      ensures used == 0 && this.limit == limit
    {
      used, this.limit := 0, limit;
    }
  }

  /** A reader over one layer's bytes; the running hash is modelled by the bytes it has consumed. */
  class Reader {
    const stream: seq<bv8>
    const budget: Meter
    var bytes: nat
    var hashed: seq<bv8>

    constructor (stream: seq<bv8>, budget: Meter)
      ensures this.stream == stream && this.budget == budget && Valid() && bytes == 0
    {
      this.stream, this.budget, bytes, hashed := stream, budget, 0, [];
    }

    ghost predicate Valid()
      reads this
    {
      bytes <= |stream| && hashed == stream[..bytes]
    }

    /** One read; `available` is how much the stream underneath delivers, which is nothing only at its end. */
    method Read(size: int, available: nat) returns (data: Option<seq<bv8>>)
      requires Valid() && available > 0 && budget.used <= budget.limit
      modifies this, budget
      ensures data.Some? ==>
                && Valid() && bytes == old(bytes) + |data.value| && data.value == stream[old(bytes)..bytes]
                && budget.used == old(budget.used) + |data.value| <= budget.limit
                && |data.value| <= 1048576 && (size >= 0 ==> |data.value| <= size)
                && (data.value == [] <==> size == 0 || old(bytes) == |stream|)
      ensures data.None? ==> old(budget.used) + |stream| - old(bytes) > budget.limit
    {
      var wanted := Min(if size < 0 then BLOCK else size, BLOCK);
      var n := Min(wanted, Min(available, |stream| - bytes));
      var block := stream[bytes..bytes + n];
      bytes, budget.used := bytes + n, budget.used + n;
      if budget.used > budget.limit {
        return None;
      }
      hashed := hashed + block;
      return Some(block);
    }

    /** Reading to the end: it succeeds exactly when the rest fits the shared bound, and then every byte was hashed. */
    method Drain() returns (ok: bool)
      requires Valid() && budget.used <= budget.limit
      modifies this, budget
      ensures ok <==> old(budget.used) + |stream| - old(bytes) <= budget.limit
      ensures ok ==> hashed == stream && bytes == |stream| && budget.used == old(budget.used) + |stream| - old(bytes)
    {
      ok := true;
      var more := true;
      while more
        invariant Valid() && old(bytes) <= bytes && budget.used == old(budget.used) + bytes - old(bytes) <= budget.limit
        invariant more || bytes == |stream|
        decreases |stream| - bytes, more
      {
        var available: nat :| available > 0;
        var data := Read(BLOCK, available);
        if data.None? {
          return false;
        }
        more := data.value != [];
      }
    }
  }
}
