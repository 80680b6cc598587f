/** A table of blocks by their 64-bit hash: separate chains over a power of two of
    buckets, newest entry first. The blocks stay with the caller. */
module HashTable {
  import opened Words
  import opened Lists
  import opened BlockHash

  class Entry {
    const hash: u64
    const data: array<u8>
    const len: nat
    var next: Entry?

    constructor (hash: u64, data: array<u8>, len: nat, next: Entry?)
      ensures this.hash == hash && this.data == data && this.len == len && this.next == next
    {
      this.hash, this.data, this.len, this.next := hash, data, len, next;
    }
  }

  // ---------------------------------------------------------------------------
  // What the chains hold
  // ---------------------------------------------------------------------------

  /** The entries of a log of insertions that hash to a bucket, newest first. */
  function ChainOf(log: seq<Entry>, n: nat, b: nat): (chain: seq<Entry>)
    requires n > 0
    ensures forall e :: e in chain ==> e in log && e.hash % n == b
  {
    if log == [] then []
    else
      var older := ChainOf(log[..|log| - 1], n, b);
      if log[|log| - 1].hash % n == b then [log[|log| - 1]] + older else older
  }

  /** A chain of links through exactly these entries, ending in NULL. */
  ghost predicate Links(e: Entry?, chain: seq<Entry>)
    reads set o | o in chain
    decreases |chain|
  {
    if chain == [] then e == null else e == chain[0] && Links(chain[0].next, chain[1..])
  }

  lemma {:induction false} ChainMembers(log: seq<Entry>, n: nat, b: nat)
    requires n > 0
    ensures forall e :: e in ChainOf(log, n, b) <==> e in log && e.hash % n == b
  {
    if log != [] {
      ChainMembers(log[..|log| - 1], n, b);
      assert log == log[..|log| - 1] + [log[|log| - 1]];
    }
  }

  lemma {:induction false} ChainDistinct(log: seq<Entry>, n: nat, b: nat)
    requires n > 0 && Distinct(log)
    ensures Distinct(ChainOf(log, n, b))
  {
    if log != [] {
      var last := log[|log| - 1];
      ChainDistinct(log[..|log| - 1], n, b);
      ChainMembers(log[..|log| - 1], n, b);
      assert last !in log[..|log| - 1];
    }
  }

  /** A new entry goes to the front of its own chain. */
  lemma ChainGrows(log: seq<Entry>, e: Entry, n: nat, b: nat)
    requires n > 0
    ensures ChainOf(log + [e], n, b) == if e.hash % n == b then [e] + ChainOf(log, n, b) else ChainOf(log, n, b)
  {
    assert (log + [e])[..|log + [e]| - 1] == log;
  }

  lemma LinksPush(e: Entry, chain: seq<Entry>)
    requires Links(e.next, chain)
    ensures Links(e, [e] + chain)
  {
    assert ([e] + chain)[1..] == chain;
  }

  /** What comes later in the log than an entry of a chain stands before it there. */
  lemma {:induction false} ChainOrder(log: seq<Entry>, n: nat, b: nat, k: nat) returns (i: nat)
    requires n > 0 && k < |ChainOf(log, n, b)|
    ensures i < |log| && log[i] == ChainOf(log, n, b)[k]
    ensures forall j :: i < j < |log| && log[j].hash % n == b ==> log[j] in ChainOf(log, n, b)[..k]
  {
    var older, last := log[..|log| - 1], log[|log| - 1];
    var chain := ChainOf(log, n, b);
    if last.hash % n != b {
      i := ChainOrder(older, n, b, k);
    } else if k == 0 {
      i := |log| - 1;
    } else {
      i := ChainOrder(older, n, b, k - 1);
      assert chain[..k] == [last] + ChainOf(older, n, b)[..k - 1];
      assert last in chain[..k];
      forall j | i < j < |log| && log[j].hash % n == b ensures log[j] in chain[..k] {
        if j < |log| - 1 {
          assert older[j] in ChainOf(older, n, b)[..k - 1];
        }
      }
    }
  }

  /** The lengths of the chains of the first `i` buckets together. */
  function TotalLength(log: seq<Entry>, n: nat, i: nat): nat
    requires n > 0
  {
    if i == 0 then 0 else TotalLength(log, n, i - 1) + |ChainOf(log, n, i - 1)|
  }

  lemma {:induction false} TotalGrows(log: seq<Entry>, e: Entry, n: nat, i: nat)
    requires n > 0
    ensures TotalLength(log + [e], n, i) == TotalLength(log, n, i) + if e.hash % n < i then 1 else 0
  {
    if i > 0 {
      TotalGrows(log, e, n, i - 1);
      assert (log + [e])[..|log + [e]| - 1] == log;
    }
  }

  /** All chains together hold every insertion once. */
  lemma {:induction false} ChainsHoldAll(log: seq<Entry>, n: nat)
    requires n > 0
    ensures TotalLength(log, n, n) == |log|
  {
    if log == [] {
      NothingChained(n, n);
    } else {
      var older := log[..|log| - 1];
      ChainsHoldAll(older, n);
      TotalGrows(older, log[|log| - 1], n, n);
      assert log == older + [log[|log| - 1]];
    }
  }

  lemma {:induction false} NothingChained(n: nat, i: nat)
    requires n > 0
    ensures TotalLength([], n, i) == 0
  {
    if i > 0 {
      NothingChained(n, i - 1);
    }
  }

  /** An entry that answers a query for these bytes. */
  ghost predicate Matches(e: Entry, hash: u64, bytes: Bytes)
    reads e.data
  {
    e.hash == hash && SameBytes(e, bytes)
  }

  ghost predicate SameBytes(e: Entry, bytes: Bytes)
    reads e.data
  {
    e.len == |bytes| && e.len <= e.data.Length && e.data[..e.len] == bytes
  }

  // ---------------------------------------------------------------------------
  // The table in place
  // ---------------------------------------------------------------------------

  class Table {
    var buckets: array?<Entry?>
    var bucketCount: nat
    var entryCount: nat
    /** Every entry inserted so far, oldest first. */
    ghost var log: seq<Entry>
    ghost var exponent: nat

    ghost predicate Valid()
      reads this, buckets, set e | e in log
    {
      && buckets != null && buckets.Length == bucketCount == Pow2(exponent)
      && entryCount == |log| && Distinct(log)
      && (forall i :: 0 <= i < |log| ==> log[i].len <= log[i].data.Length)
      && (forall b :: 0 <= b < bucketCount ==> Links(buckets[b], ChainOf(log, bucketCount, b)))
    }

    /** Nobody changed an inserted block: its bytes still have the hash they had. */
    ghost predicate Untouched()
      reads this, log, set e | e in log :: e.data
    {
      forall e :: e in log ==>
        e.len <= e.data.Length && Supported(e.data[..e.len]) && e.hash == HashOf(e.data[..e.len])
    }

    constructor ()
      ensures buckets == null && bucketCount == 0 && entryCount == 0
    {
      buckets, bucketCount, entryCount, log, exponent := null, 0, 0, [], 0;
    }

    /** `init_hash_table`: the least power of two that is no less than the request. */
    method InitHashTable(request: nat, memory: bool) returns (ok: bool)
      requires request <= 0x8000_0000_0000_0000
      modifies this
      ensures ok == memory
      ensures !ok ==> buckets == null
      ensures ok ==> Valid() && fresh(buckets) && log == [] && entryCount == 0
      ensures ok ==> bucketCount >= request && (bucketCount == 1 || bucketCount / 2 < request)
    {
      var n := 1;
      ghost var k := 0;
      while n < request
        invariant n == Pow2(k) && (n == 1 || n / 2 < request)
        invariant n < U64_SIZE
        decreases request - n
      {
        n := n * 2;
        k := k + 1;
      }
      if !memory {
        buckets := null;
        return false;
      }
      buckets := new Entry?[n](_ => null);
      bucketCount, entryCount := n, 0;
      log, exponent := [], k;
      return true;
    }

    /** `hash_table_insert` */
    method HashTableInsert(data: array<u8>, len: nat, memory: bool) returns (ok: bool)
      requires Valid() && len <= data.Length && Supported(data[..len])
      modifies this, buckets
      ensures Valid() && ok == memory && buckets == old(buckets) && bucketCount == old(bucketCount)
      ensures !ok ==> log == old(log) && buckets[..] == old(buckets[..])
      ensures ok ==> |log| == |old(log)| + 1 && log[..|old(log)|] == old(log)
      ensures ok ==>
        var e := log[|old(log)|];
        fresh(e) && e.hash == HashOf(data[..len]) && e.data == data && e.len == len
    {
      hide HashOf, ChainOf, Links, And, Pow2;
      if !memory {
        return false;
      }
      var hash := FastHash(data[..len]);
      AndMask(hash, exponent);
      var idx := And(hash, bucketCount - 1);
      var e := new Entry(hash, data, len, buckets[idx]);
      Push(e, idx);
      return true;
    }

    /** The entry becomes the head of its bucket. */
    method Push(e: Entry, idx: nat)
      requires Valid() && idx < bucketCount && idx == e.hash % bucketCount && e.next == buckets[idx]
      requires e !in log && e.len <= e.data.Length
      modifies this`entryCount, this`log, buckets
      ensures Valid() && log == old(log) + [e]
    {
      hide ChainOf, Links, Pow2;
      ghost var was := log;
      assert forall b :: 0 <= b < bucketCount ==> Links(buckets[b], ChainOf(was, bucketCount, b));
      LinksPush(e, ChainOf(was, bucketCount, idx));
      buckets[idx] := e;
      entryCount := entryCount + 1;
      log := log + [e];
      forall b | 0 <= b < bucketCount ensures Links(buckets[b], ChainOf(log, bucketCount, b)) {
        ChainGrows(was, e, bucketCount, b);
        assert b != idx ==> Links(buckets[b], ChainOf(was, bucketCount, b));
      }
    }

    /** The entry is the newest in the log that answers the query. */
    ghost predicate Newest(r: Entry, hash: u64, bytes: Bytes)
      reads this, log, set e | e in log :: e.data
    {
      exists i :: 0 <= i < |log| && log[i] == r && Matches(r, hash, bytes)
               && forall j :: i < j < |log| ==> !Matches(log[j], hash, bytes)
    }

    /** `hash_table_lookup` */
    method HashTableLookup(data: array<u8>, len: nat) returns (r: Entry?)
      requires Valid() && len <= data.Length && Supported(data[..len])
      ensures r == null ==> forall e :: e in log ==> !Matches(e, HashOf(data[..len]), data[..len])
      ensures r != null ==> r in log && Newest(r, HashOf(data[..len]), data[..len])
      ensures Untouched() && r == null ==> forall e :: e in log ==> !SameBytes(e, data[..len])
      ensures Untouched() && r != null ==>
        exists i :: 0 <= i < |log| && log[i] == r && SameBytes(r, data[..len])
                 && forall j :: i < j < |log| ==> !SameBytes(log[j], data[..len])
    {
      hide HashOf, ChainOf, And, Pow2;
      var h := FastHash(data[..len]);
      AndMask(h, exponent);
      var idx := And(h, bucketCount - 1);
      ghost var chain := ChainOf(log, bucketCount, idx);
      ghost var k := 0;
      ChainMembers(log, bucketCount, idx);
      r := buckets[idx];
      while r != null
        invariant k <= |chain| && Links(r, chain[k..])
        invariant forall i :: 0 <= i < k ==> !Matches(chain[i], h, data[..len])
        decreases |chain| - k
      {
        assert r == chain[k] && r in log;
        assert r.len <= r.data.Length;
        if r.hash == h && r.len == len && r.data[..len] == data[..len] {
          FoundNewest(r, k, idx, h, data[..len]);
          return;
        }
        assert chain[k..][1..] == chain[k + 1..];
        r := r.next;
        k := k + 1;
      }
      UntouchedMatches(data[..len]);
    }

    /** The first of its chain to answer is the newest of the log to answer. */
    lemma FoundNewest(r: Entry, k: nat, idx: nat, h: u64, bytes: Bytes)
      requires Valid() && idx < bucketCount && h % bucketCount == idx && k < |ChainOf(log, bucketCount, idx)|
      requires Supported(bytes) && h == HashOf(bytes)
      requires r == ChainOf(log, bucketCount, idx)[k] && r in log && Matches(r, h, bytes)
      requires forall i :: 0 <= i < k ==> !Matches(ChainOf(log, bucketCount, idx)[i], h, bytes)
      ensures Newest(r, h, bytes)
      ensures Untouched() ==>
        exists i :: 0 <= i < |log| && log[i] == r && SameBytes(r, bytes)
                 && forall j :: i < j < |log| ==> !SameBytes(log[j], bytes)
    {
      hide HashOf, ChainOf, Links, Pow2;
      var i := ChainOrder(log, bucketCount, idx, k);
      UntouchedMatches(bytes);
      forall j | i < j < |log| ensures !Matches(log[j], h, bytes) {
        if log[j].hash == h {
          assert log[j] in ChainOf(log, bucketCount, idx)[..k];
        }
      }
    }

    /** As long as no block changed, the bytes alone decide. */
    lemma UntouchedMatches(bytes: Bytes)
      requires Supported(bytes)
      ensures Untouched() ==> forall e :: e in log ==> (Matches(e, HashOf(bytes), bytes) <==> SameBytes(e, bytes))
    {
    }

    /** `free_hash_table`: every entry is freed, and none twice. */
    method FreeHashTable() returns (ghost freed: seq<Entry>)
      requires Valid()
      modifies this
      ensures buckets == null && bucketCount == 0 && entryCount == 0
      ensures Distinct(freed) && forall e :: e in freed <==> e in old(log)
    {
      hide ChainOf, Pow2;
      freed := [];
      ghost var all := log;
      for i := 0 to bucketCount
        invariant Valid() && log == all && bucketCount == old(bucketCount)
        invariant Distinct(freed)
        invariant forall e :: e in freed <==> e in all && e.hash % bucketCount < i
      {
        ghost var chain := ChainOf(all, bucketCount, i);
        ChainMembers(all, bucketCount, i);
        ChainDistinct(all, bucketCount, i);
        ghost var k := 0;
        ghost var before := freed;
        var e := buckets[i];
        while e != null
          invariant k <= |chain| && Links(e, chain[k..]) && freed == before + chain[..k]
          decreases |chain| - k
        {
          var next := e.next;
          assert chain[k..][1..] == chain[k + 1..];
          assert chain[..k + 1] == chain[..k] + [e];
          freed := freed + [e];
          e := next;
          k := k + 1;
        }
        assert freed == before + chain;
        Appended(before, chain);
      }
      buckets := null;
      bucketCount := 0;
      entryCount := 0;
    }
  }

  lemma Appended(a: seq<Entry>, b: seq<Entry>)
    ensures forall e :: e in a + b <==> e in a || e in b
    ensures Distinct(a) && Distinct(b) && (forall e :: e in a ==> e !in b) ==> Distinct(a + b)
  {
    if Distinct(a) && Distinct(b) && (forall e :: e in a ==> e !in b) {
      forall i, j | 0 <= i < j < |a + b| ensures (a + b)[i] != (a + b)[j] {
        if i < |a| <= j {
          assert a[i] in a && b[j - |a|] in b;
        }
      }
    }
  }
}
