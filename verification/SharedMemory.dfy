/**
 `SharedMemoryChannel`: a ring buffer whose header holds the total number of samples
 written. The ring refines the unbounded history of all samples.
 */
module SharedMemory {
  import opened Numbers

  /** The newest `k` samples of a history. */
  function Last<T>(h: seq<T>, k: nat): seq<T>
    requires k <= |h|
  {
    h[|h| - k..]
  }

  /** The newest `k` samples of `h` are where the ring keeps them. */
  ghost predicate Holds<T(!new)>(mem: seq<T>, h: seq<T>, k: nat) {
    && k <= |h| && k <= |mem| && |mem| > 0
    && forall j :: |h| - k <= j < |h| ==> mem[j % |mem|] == h[j]
  }

  /** `read_latest` on a memory image and a header. */
  function Latest<T>(mem: seq<T>, writeIndex: nat, count: nat): seq<T>
    requires |mem| > 0
  {
    if writeIndex == 0 then []
    else
      var c := MinInt(count, MinInt(writeIndex, |mem|));
      var end := writeIndex % |mem|;
      var start := end - c;
      if start >= 0 then mem[start..end] else mem[start + |mem|..] + mem[..end]
  }

  // ---------------------------------------------------------------- positions

  lemma AheadPosition(w: nat, q: nat, cap: nat)
    requires cap > 0 && w % cap + q < 2 * cap
    ensures (w + q) % cap == if w % cap + q < cap then w % cap + q else w % cap + q - cap
  {
    var r := w % cap + q;
    var s := if r < cap then r else r - cap;
    var k := w / cap + if r < cap then 0 else 1;
    assert w + q == k * cap + s;
    ModUnique(w + q, k, s, cap);
  }

  lemma BehindPosition(w: nat, m: nat, cap: nat)
    requires cap > 0 && 1 <= m <= cap && m <= w
    ensures (w - m) % cap == if m <= w % cap then w % cap - m else w % cap - m + cap
  {
    var r := w % cap - m;
    var s := if r >= 0 then r else r + cap;
    var k := w / cap - if r >= 0 then 0 else 1;
    assert w - m == k * cap + s;
    ModUnique(w - m, k, s, cap);
  }

  lemma ModUnique(n: int, k: int, s: int, cap: int)
    requires 0 <= s < cap && n == k * cap + s
    ensures n % cap == s
  {
    var d := n / cap - k;
    assert n == n / cap * cap + n % cap;
    assert d * cap == s - n % cap;
    SmallMultiple(d, cap);
  }

  lemma SmallMultiple(d: int, cap: int)
    requires -cap < d * cap < cap
    ensures d == 0
  {
    ProductAtLeast(if d > 0 then d else 0, cap);
    ProductAtLeast(if d < 0 then -d else 0, cap);
  }

  lemma ProductAtLeast(a: nat, b: nat)
    ensures a >= 1 ==> a * b >= b
  {
    if a >= 1 {
      assert a * b == b + (a - 1) * b;
    }
  }

  // ---------------------------------------------------------------- reading

  lemma LatestIsHistory<T(!new)>(mem: seq<T>, h: seq<T>, k: nat, count: nat)
    requires Holds(mem, h, k) && MinInt(count, MinInt(|h|, |mem|)) <= k
    ensures Latest(mem, |h|, count) == Last(h, MinInt(count, MinInt(|h|, |mem|)))
  {
    var c := MinInt(count, MinInt(|h|, |mem|));
    var out, want := Latest(mem, |h|, count), Last(h, c);
    if |h| > 0 {
      assert |out| == c;
      forall i | 0 <= i < c ensures out[i] == want[i] {
        BehindPosition(|h|, c - i, |mem|);
        assert mem[(|h| - (c - i)) % |mem|] == h[|h| - (c - i)];
      }
    }
  }

  /** `mem'` differs from `mem` at most where a write of `n` samples at `w` stores. */
  ghost predicate Torn<T(!new)>(mem: seq<T>, mem': seq<T>, w: nat, n: nat) {
    && |mem'| == |mem| > 0
    && forall p :: 0 <= p < |mem| && mem'[p] != mem[p] ==> exists q :: 0 <= q < n && p == StorePosition(w, q, |mem|)
  }

  function StorePosition(w: nat, q: nat, cap: nat): (p: nat)
    requires cap > 0
    ensures p < cap
  {
    (w + q) % cap
  }

  /** Sample `|h| - m` and store `q` meet only once the write is `m` short of a full turn. */
  lemma PositionsMeet(w: nat, m: nat, q: nat, cap: nat)
    requires cap > 0 && 1 <= m <= cap && m <= w && q < cap
    ensures (w - m) % cap == StorePosition(w, q, cap) <==> m + q == cap
  {
    BehindPosition(w, m, cap);
    AheadPosition(w, q, cap);
  }

  /**
   Publication order: stores first, header last. A reader that sees the old header while a
   write of `n` samples is anywhere in between still gets the newest published samples.
   */
  lemma TornReadIsSafe<T(!new)>(mem: seq<T>, mem': seq<T>, h: seq<T>, n: nat, c: nat)
    requires Holds(mem, h, MinInt(|h|, |mem|)) && Torn(mem, mem', |h|, n)
    requires c <= |h| && c + n <= |mem|
    ensures Latest(mem', |h|, c) == Last(h, c)
  {
    forall j | |h| - c <= j < |h| ensures mem'[j % |mem|] == h[j] {
      var p := j % |mem|;
      if mem'[p] != mem[p] {
        var q :| 0 <= q < n && p == StorePosition(|h|, q, |mem|);
        PositionsMeet(|h|, |h| - j, q, |mem|);
      }
    }
    LatestIsHistory(mem', h, c, c);
  }

  // ---------------------------------------------------------------- writing

  /** The memory after both slice assignments of a write at header `w`. */
  ghost predicate Written<T(!new)>(mem: seq<T>, mem': seq<T>, w: nat, data: seq<T>) {
    && |mem'| == |mem| > 0
    && var cap, idx, n := |mem|, w % |mem|, |data|;
       forall p :: 0 <= p < cap ==>
         mem'[p] == if p < idx + n - cap then data[cap - idx + p]
                    else if idx <= p < idx + n then data[p - idx]
                    else mem[p]
  }

  lemma WrittenHolds<T(!new)>(mem: seq<T>, mem': seq<T>, h: seq<T>, k: nat, data: seq<T>)
    requires Holds(mem, h, k) && Written(mem, mem', |h|, data)
    requires |h| % |mem| + |data| <= 2 * |mem|
    ensures Holds(mem', h + data, MinInt(k + |data|, |mem|))
  {
    var cap, w, n := |mem|, |h|, |data|;
    var h', k' := h + data, MinInt(k + |data|, |mem|);
    forall j | |h'| - k' <= j < |h'| ensures mem'[j % cap] == h'[j] {
      if j >= w {
        AheadPosition(w, j - w, cap);
      } else {
        BehindPosition(w, w - j, cap);
        assert mem[j % cap] == h[j];
      }
    }
  }

  /** A refused write has filled the ring's tail: only samples in front of it survive. */
  lemma RefusedHolds<T(!new)>(mem: seq<T>, mem': seq<T>, h: seq<T>, k: nat)
    requires Holds(mem, h, k) && |mem'| == |mem|
    requires forall p :: 0 <= p < |h| % |mem| ==> mem'[p] == mem[p]
    ensures Holds(mem', h, MinInt(k, |h| % |mem|))
  {
    forall j | |h| - MinInt(k, |h| % |mem|) <= j < |h| ensures mem'[j % |mem|] == h[j] {
      BehindPosition(|h|, |h| - j, |mem|);
      assert mem[j % |mem|] == h[j];
    }
  }

  class SharedMemoryChannel<T(0,!new)> {
    const capacity: nat
    const data: array<T>
    var writeIndex: nat
    var timestampNs: nat
    var chunkSize: nat
    ghost var history: seq<T>
    ghost var intact: nat

    ghost predicate Valid()
      reads this, data
    {
      && data.Length == capacity > 0
      && writeIndex == |history|
      && Holds(data[..], history, intact)
    }

    /** Everything the ring can hold is in place. */
    ghost predicate Sound()
      reads this, data
    {
      Valid() && intact == MinInt(|history|, capacity)
    }

    constructor (capacity: nat)
      requires capacity > 0
      ensures Sound() && history == [] && this.capacity == capacity && fresh(data)
    {
      this.capacity := capacity;
      data := new T[capacity];
      writeIndex, timestampNs, chunkSize := 0, 0, 0;
      history, intact := [], 0;
    }

    /**
     Writes a chunk; `false` stands for the ValueError the wrap-around assignment raises
     on a chunk that is too long, after the tail of the ring is already overwritten.
     */
    method Write(chunk: seq<T>, now: nat) returns (ok: bool)
      requires Valid()
      modifies this, data
      ensures Valid()
      ensures ok <==> |chunk| <= 2 * capacity - old(writeIndex) % capacity
      ensures ok ==> history == old(history) + chunk && intact == MinInt(old(intact) + |chunk|, capacity)
      ensures ok && chunk != [] ==> timestampNs == now && chunkSize == |chunk|
      ensures ok && old(Sound()) ==> Sound()
      ensures !ok ==> history == old(history) && intact == MinInt(old(intact), old(writeIndex) % capacity)
      ensures !ok || chunk == [] ==> timestampNs == old(timestampNs) && chunkSize == old(chunkSize)
      ensures chunk == [] ==> data[..] == old(data[..])
      ensures Torn(old(data[..]), data[..], old(writeIndex), |chunk|)
    {
      var n := |chunk|;
      if n == 0 {
        return true;
      }
      ghost var before := data[..];
      ok := StoreSlices(chunk);
      if !ok {
        RefusedHolds(before, data[..], history, intact);
        intact := MinInt(intact, writeIndex % capacity);
        return;
      }
      WrittenHolds(before, data[..], history, intact, chunk);
      history, intact := history + chunk, MinInt(intact + n, capacity);
      writeIndex, timestampNs, chunkSize := writeIndex + n, now, n;
    }

    /** The one or two slice assignments of a write, before the header moves. */
    method StoreSlices(chunk: seq<T>) returns (ok: bool)
      requires data.Length == capacity > 0
      modifies data
      ensures ok <==> |chunk| <= 2 * capacity - writeIndex % capacity
      ensures ok ==> Written(old(data[..]), data[..], writeIndex, chunk)
      ensures !ok ==> forall p :: 0 <= p < writeIndex % capacity ==> data[..][p] == old(data[..])[p]
      ensures Torn(old(data[..]), data[..], writeIndex, |chunk|)
    {
      var n := |chunk|;
      ghost var before := data[..];
      var idx := writeIndex % capacity;
      if idx + n <= capacity {
        forall p | idx <= p < idx + n {
          data[p] := chunk[p - idx];
        }
      } else {
        var first := capacity - idx;
        forall p | idx <= p < capacity {
          data[p] := chunk[p - idx];
        }
        if n - first > capacity {
          TornPrefix(before, data[..], writeIndex, n);
          return false;
        }
        forall k | 0 <= k < n - first {
          data[k] := chunk[first + k];
        }
      }
      assert Written(before, data[..], writeIndex, chunk);
      WrittenIsTorn(before, data[..], writeIndex, chunk);
      return true;
    }

    method ReadLatest(count: nat) returns (out: seq<T>)
      requires Valid()
      ensures MinInt(count, MinInt(|history|, capacity)) <= intact ==>
              out == Last(history, MinInt(count, MinInt(|history|, capacity)))
      ensures Sound() ==> out == Last(history, MinInt(count, MinInt(|history|, capacity)))
      ensures Sound() ==>
        && |out| <= count && |out| <= capacity && |out| <= |history| && out == history[|history| - |out|..]
        && (|out| == count || |out| == capacity || out == history)
      ensures out == Latest(data[..], writeIndex, count)
    {
      if MinInt(count, MinInt(|history|, capacity)) <= intact {
        LatestIsHistory(data[..], history, intact, count);
      }
      if writeIndex == 0 {
        return [];
      }
      var c := MinInt(count, MinInt(writeIndex, capacity));
      var end := writeIndex % capacity;
      var start := end - c;
      if start >= 0 {
        out := data[start..end];
        assert data[..][start..end] == data[start..end];
      } else {
        out := data[start + capacity..] + data[..end];
        assert data[..][start + capacity..] == data[start + capacity..];
        assert data[..][..end] == data[..end];
      }
    }
  }

  lemma TornPrefix<T(!new)>(mem: seq<T>, mem': seq<T>, w: nat, n: nat)
    requires |mem'| == |mem| > 0 && |mem| - w % |mem| <= n
    requires forall p :: 0 <= p < w % |mem| ==> mem'[p] == mem[p]
    ensures Torn(mem, mem', w, n)
  {
    forall p | 0 <= p < |mem| && mem'[p] != mem[p] ensures exists q :: 0 <= q < n && p == StorePosition(w, q, |mem|) {
      AheadPosition(w, p - w % |mem|, |mem|);
      assert p == StorePosition(w, p - w % |mem|, |mem|);
    }
  }

  lemma WrittenIsTorn<T(!new)>(mem: seq<T>, mem': seq<T>, w: nat, data: seq<T>)
    requires Written(mem, mem', w, data) && w % |mem| + |data| <= 2 * |mem|
    ensures Torn(mem, mem', w, |data|)
  {
    var cap, idx := |mem|, w % |mem|;
    forall p | 0 <= p < cap && mem'[p] != mem[p] ensures exists q :: 0 <= q < |data| && p == StorePosition(w, q, cap) {
      var q := if p >= idx && p < idx + |data| then p - idx else cap - idx + p;
      AheadPosition(w, q, cap);
      assert p == StorePosition(w, q, cap);
    }
  }

  // ---------------------------------------------------------------- an unfinished write

  /** The memory after the first `k` stores of a write at header `w`, before the header moves. */
  function StoredFirst<T>(mem: seq<T>, w: nat, chunk: seq<T>, k: nat): (r: seq<T>)
    requires |mem| > 0 && k <= |chunk|
    ensures |r| == |mem|
  {
    if k == 0 then mem else StoredFirst(mem, w, chunk, k - 1)[StorePosition(w, k - 1, |mem|) := chunk[k - 1]]
  }

  /** After `k` stores the memory is that of a finished write of the first `k` samples. */
  lemma {:induction false} StoredFirstWritten<T(!new)>(mem: seq<T>, w: nat, chunk: seq<T>, k: nat)
    requires |mem| > 0 && k <= |chunk| && w % |mem| + k <= 2 * |mem|
    ensures Written(mem, StoredFirst(mem, w, chunk, k), w, chunk[..k])
  {
    if k == 0 {
    } else {
      StoredFirstWritten(mem, w, chunk, k - 1);
      AheadPosition(w, k - 1, |mem|);
      OneMoreStore(mem, StoredFirst(mem, w, chunk, k - 1), w, chunk, k);
    }
  }

  lemma OneMoreStore<T(!new)>(mem: seq<T>, before: seq<T>, w: nat, chunk: seq<T>, k: nat)
    requires 0 < k <= |chunk| && |mem| > 0 && w % |mem| + k <= 2 * |mem|
    requires Written(mem, before, w, chunk[..k - 1])
    requires var p := w % |mem| + k - 1; StorePosition(w, k - 1, |mem|) == if p < |mem| then p else p - |mem|
    ensures Written(mem, before[StorePosition(w, k - 1, |mem|) := chunk[k - 1]], w, chunk[..k])
  {
    hide StorePosition;
  }

  lemma StoredFirstTorn<T(!new)>(mem: seq<T>, w: nat, chunk: seq<T>, k: nat)
    requires |mem| > 0 && k <= |chunk| && w % |mem| + k <= 2 * |mem|
    ensures Torn(mem, StoredFirst(mem, w, chunk, k), w, |chunk|)
  {
    StoredFirstWritten(mem, w, chunk, k);
    WrittenIsTorn(mem, StoredFirst(mem, w, chunk, k), w, chunk[..k]);
  }

  /**
   The bound is exact: a read is right at every moment of every accepted write of `n`
   samples exactly when `c + n` fits the ring. One sample more, and the store of the
   oldest position read already shows.
   */
  lemma TornReadExactly<T(!new)>(mem: seq<T>, h: seq<T>, n: nat, c: nat, other: T)
    requires Holds(mem, h, MinInt(|h|, |mem|)) && |h| % |mem| + n <= 2 * |mem|
    requires 0 < c <= MinInt(|h|, |mem|) && other != h[|h| - c]
    ensures (forall chunk: seq<T>, k: nat :: |chunk| == n && k <= n ==>
               Latest(StoredFirst(mem, |h|, chunk, k), |h|, c) == Last(h, c))
            <==> c + n <= |mem|
  {
    if c + n <= |mem| {
      forall chunk: seq<T>, k: nat | |chunk| == n && k <= n
        ensures Latest(StoredFirst(mem, |h|, chunk, k), |h|, c) == Last(h, c)
      {
        StoredFirstTorn(mem, |h|, chunk, k);
        TornReadIsSafe(mem, StoredFirst(mem, |h|, chunk, k), h, n, c);
      }
    } else {
      var chunk, k := UnsafeRead(mem, h, n, c, other);
    }
  }

  lemma StoreShows<T(!new)>(mem: seq<T>, w: nat, chunk: seq<T>, q: nat)
    requires |mem| > 0 && q < |chunk|
    ensures StoredFirst(mem, w, chunk, q + 1)[StorePosition(w, q, |mem|)] == chunk[q]
  {
  }

  /** The first sample a read of `c` returns is where the store of sample `cap - c` of the next write goes. */
  lemma ReadFirst<T(!new)>(mem: seq<T>, w: nat, c: nat)
    requires |mem| > 0 && 0 < c <= MinInt(w, |mem|)
    ensures |Latest(mem, w, c)| == c && Latest(mem, w, c)[0] == mem[StorePosition(w, |mem| - c, |mem|)]
  {
    BehindPosition(w, c, |mem|);
    AheadPosition(w, |mem| - c, |mem|);
  }

  lemma UnsafeRead<T(!new)>(mem: seq<T>, h: seq<T>, n: nat, c: nat, other: T) returns (chunk: seq<T>, k: nat)
    requires |mem| > 0 && 0 < c <= MinInt(|h|, |mem|) && other != h[|h| - c] && c + n > |mem|
    ensures |chunk| == n && k <= n && Latest(StoredFirst(mem, |h|, chunk, k), |h|, c) != Last(h, c)
  {
    hide StoredFirst, Latest, StorePosition;
    chunk, k := seq(n, i => other), |mem| - c + 1;
    StoreShows(mem, |h|, chunk, k - 1);
    ReadFirst(StoredFirst(mem, |h|, chunk, k), |h|, c);
    assert Last(h, c)[0] == h[|h| - c];
  }

  // ---------------------------------------------------------------- node and bridge

  /**
   `LocalNode.publish` followed by the bridge's `_handle_data_available`: the request is
   answered before the next write, so the bridge reads the chunk itself, or its newest
   `capacity` samples when it is longer than the ring.
   */
  method PublishAndRelay<T(0,!new)>(channel: SharedMemoryChannel<T>, chunk: seq<T>, now: nat)
    returns (ok: bool, relayed: seq<T>)
    requires channel.Sound()
    modifies channel, channel.data
    ensures ok <==> |chunk| <= 2 * channel.capacity - old(channel.writeIndex) % channel.capacity
    ensures ok ==> channel.Sound() && relayed == Last(chunk, MinInt(|chunk|, channel.capacity))
    ensures |chunk| <= channel.capacity ==> ok && relayed == chunk
  {
    relayed := [];
    ok := channel.Write(chunk, now);
    if ok {
      relayed := channel.ReadLatest(|chunk|);
      LastOfConcat(old(channel.history), chunk, MinInt(|chunk|, channel.capacity));
    }
  }

  lemma LastOfConcat<T>(a: seq<T>, b: seq<T>, k: nat)
    requires k <= |b|
    ensures Last(a + b, k) == Last(b, k)
  {
  }

  /** A whole run of publishes relays every chunk unchanged while none exceeds the ring. */
  method RelayAll<T(0,!new)>(channel: SharedMemoryChannel<T>, chunks: seq<seq<T>>, stamps: seq<nat>)
    returns (relayed: seq<seq<T>>)
    requires channel.Sound() && |stamps| == |chunks|
    requires forall i :: 0 <= i < |chunks| ==> |chunks[i]| <= channel.capacity
    modifies channel, channel.data
    ensures relayed == chunks && channel.Sound()
  {
    relayed := [];
    for i := 0 to |chunks|
      invariant channel.Sound() && relayed == chunks[..i]
    {
      var ok, part := PublishAndRelay(channel, chunks[i], stamps[i]);
      relayed := relayed + [part];
    }
  }
}
