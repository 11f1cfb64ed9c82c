/**
 * The backend's output buffers (buffer-limit.service.ts): a circular buffer
 * that keeps only the newest `maxSize` characters of what is appended to it,
 * and a registry that maps session ids to such buffers under one global
 * capacity, with memory statistics and an 80% warning rule.
 */
module BufferLimit {
  import opened Wrappers

  /** `10 * 1024 * 1024`, the capacity a fresh registry starts with. */
  const DefaultMaxBufferSize: int := 10 * 1024 * 1024

  /** The error `setMaxBufferSize` throws for a capacity that is not positive. */
  const NonPositiveSizeError: string := "バッファサイズは正の値である必要があります"

  function Min(a: int, b: int): int {
    if a <= b then a else b
  }

  /**
   * What `append` leaves in a buffer of capacity `n` holding `s` after the
   * concatenation: when `s` is longer than `n`, `s.substring(excess)` with
   * `excess = |s| - n`, which is empty once `excess` reaches `|s|`.
   */
  function Tail(s: string, n: int): (r: string)
    ensures |r| == if |s| <= n then |s| else if n <= 0 then 0 else n
  {
    if |s| > n then s[Min(|s| - n, |s|)..] else s
  }

  /** The kept text is the end of `s`. */
  lemma TailSuffix(s: string, n: int)
    ensures Tail(s, n) == s[|s| - |Tail(s, n)|..]
  {
  }

  /** Text that fits is kept whole. */
  lemma TailFits(s: string, n: int)
    requires |s| <= n
    ensures Tail(s, n) == s
  {
  }

  lemma TailAt(s: string, n: int, u: int)
    requires 0 <= u < |Tail(s, n)|
    ensures Tail(s, n)[u] == s[|s| - |Tail(s, n)| + u]
  {
    TailSuffix(s, n);
  }

  /**
   * Keeping the tail after every append is the same as keeping the tail of
   * everything appended: the buffer never needs the characters it dropped.
   */
  lemma TailOfTail(s: string, t: string, n: int)
    ensures Tail(Tail(s, n) + t, n) == Tail(s + t, n)
  {
    var k := Tail(s, n);
    var a, b := Tail(k + t, n), Tail(s + t, n);
    assert |a| == |b|;
    forall u | 0 <= u < |a| ensures a[u] == b[u] {
      TailAt(k + t, n, u);
      TailAt(s + t, n, u);
      var x := |k + t| - |a| + u;
      if x < |k| {
        TailAt(s, n, x);
      }
    }
  }

  /** Cutting to a larger capacity and then to a smaller one is cutting to the smaller. */
  lemma TailShrink(s: string, m: int, n: int)
    requires n <= m
    ensures Tail(Tail(s, m), n) == Tail(s, n)
  {
    var k := Tail(s, m);
    var a, b := Tail(k, n), Tail(s, n);
    assert |a| == |b|;
    forall u | 0 <= u < |a| ensures a[u] == b[u] {
      TailAt(k, n, u);
      TailAt(s, n, u);
      TailAt(s, m, |k| - |a| + u);
    }
  }

  /**
   * A buffer of `maxSize` characters (`CircularBuffer`). `written` is what
   * was appended since it was created or last cleared; the buffer holds the
   * newest `maxSize` characters of it.
   */
  class CircularBuffer {
    var buffer: string
    const maxSize: int
    ghost var written: string

    ghost predicate Valid()
      reads this
    {
      buffer == Tail(written, maxSize)
    }

    constructor(maxSize: int)
      ensures this.maxSize == maxSize && buffer == [] && written == [] && Valid()
    {
      this.maxSize := maxSize;
      buffer := [];
      written := [];
    }

    /** `append`: concatenate, then drop the oldest characters beyond `maxSize`. */
    method Append(data: string)
      modifies this
      ensures buffer == Tail(old(buffer) + data, maxSize)
      ensures written == old(written) + data && (old(Valid()) ==> Valid())
    {
      buffer := buffer + data;
      if |buffer| > maxSize {
        var excess := |buffer| - maxSize;
        buffer := buffer[Min(excess, |buffer|)..];
      }
      assert buffer == Tail(old(buffer) + data, maxSize);
      written := written + data;
      if old(Valid()) {
        TailOfTail(old(written), data, maxSize);
      }
    }

    /** `getContent`: the newest `maxSize` characters written. */
    function GetContent(): (r: string)
      requires Valid()
      reads this
      ensures r == Tail(written, maxSize)
    {
      buffer
    }

    /** `getSize`: never more than the capacity. */
    function GetSize(): (n: nat)
      requires Valid()
      reads this
      ensures n == |GetContent()|
      ensures n <= |written| && (0 <= maxSize ==> n <= maxSize)
    {
      |buffer|
    }

    /** `clear`. */
    method Clear()
      modifies this
      ensures buffer == [] && written == [] && Valid()
    {
      buffer := [];
      written := [];
    }
  }

  /** The ten-character buffer of the circular-buffer example keeps "67890ABCDE". */
  method CircularBufferExample() returns (content: string, size: nat)
    ensures content == "67890ABCDE" && size == 10
  {
    var b := new CircularBuffer(10);
    b.Append("12345");
    b.Append("67890");
    b.Append("ABCDE");
    assert b.written == "12345" + "67890" + "ABCDE";
    content := b.GetContent();
    size := b.GetSize();
  }

  // ---------------------------------------------------------------------
  // Memory statistics.

  /** Every text of `m` cut to its newest `n` characters. */
  function Resized(m: map<string, string>, n: int): (r: map<string, string>)
    ensures r.Keys == m.Keys
  {
    map id | id in m :: Tail(m[id], n)
  }

  /** The sum of the lengths of the texts in `m`. */
  ghost function TotalLength(m: map<string, string>): nat
    decreases |m|
  {
    if m == map[] then 0
    else
      var k :| k in m;
      |m[k]| + TotalLength(m - {k})
  }

  /** The sum does not depend on which entry is taken first. */
  lemma {:induction false} TotalLengthRemove(m: map<string, string>, k: string)
    requires k in m
    ensures TotalLength(m) == |m[k]| + TotalLength(m - {k})
    decreases |m|
  {
    var j :| j in m && TotalLength(m) == |m[j]| + TotalLength(m - {j});
    if j != k {
      var mj, mk := m - {j}, m - {k};
      TotalLengthRemove(mj, k);
      TotalLengthRemove(mk, j);
      assert mj - {k} == mk - {j};
    }
  }

  /** Replacing one text changes the sum by the difference of lengths. */
  lemma TotalLengthUpdate(m: map<string, string>, k: string, v: string)
    ensures TotalLength(m[k := v]) + (if k in m then |m[k]| else 0) == TotalLength(m) + |v|
  {
    var m' := m[k := v];
    TotalLengthRemove(m', k);
    assert m' - {k} == m - {k};
    if k in m {
      TotalLengthRemove(m, k);
    } else {
      assert m - {k} == m;
    }
  }

  /** Texts of at most `cap` characters each sum to at most `cap` per text. */
  lemma {:induction false} TotalLengthBound(m: map<string, string>, cap: int)
    requires forall k | k in m :: |m[k]| <= cap
    ensures TotalLength(m) <= cap * |m|
    decreases |m|
  {
    if m != map[] {
      var k :| k in m;
      TotalLengthRemove(m, k);
      TotalLengthBound(m - {k}, cap);
      assert |m - {k}| == |m| - 1;
      MultiplySucc(cap, |m| - 1);
    }
  }

  /** What `getMemoryStats` returns. */
  datatype MemoryStats = MemoryStats(
    totalBuffers: nat,
    totalMemoryUsage: nat,
    averageBufferSize: real,
    maxBufferSize: int)

  /** `averageBufferSize`: the total over the count, or 0 without buffers. */
  function Mean(total: nat, count: nat): real {
    if count > 0 then total as real / count as real else 0.0
  }

  /** The mean times the count gives back the total, and the mean never exceeds the capacity. */
  lemma MeanSpec(total: nat, count: nat, cap: int)
    requires total <= cap * count
    ensures count == 0 ==> Mean(total, count) == 0.0
    ensures count > 0 ==> Mean(total, count) * count as real == total as real
    ensures count > 0 ==> Mean(total, count) <= cap as real
  {
    if count > 0 {
      var m := Mean(total, count);
      assert m * count as real == total as real;
      assert (cap * count) as real == cap as real * count as real;
      if m > cap as real {
        MultiplyStrict(cap as real, m, count as real);
      }
    }
  }

  /**
   * `usagePercent >= warningThreshold` of `isMemoryWarning`: the usage over
   * `maxBufferSize * totalBuffers`, or over 1 when that product is 0,
   * compared with 0.8.
   */
  predicate Warns(total: nat, cap: int, count: nat) {
    var whole := cap * count;
    total as real / (if whole != 0 then whole as real else 1.0) >= 0.8
  }

  /** With a positive capacity the warning is "some buffer exists and usage reaches 4/5 of the room". */
  lemma WarnsIff(total: nat, cap: int, count: nat)
    requires cap > 0 && (count == 0 ==> total == 0)
    ensures Warns(total, cap, count) <==> count > 0 && 5 * total >= 4 * cap * count
  {
    var whole := cap * count;
    if count > 0 {
      MultiplyPositive(cap, count);
      RatioBound(total as real, whole as real);
      assert (5 * total) as real == 5.0 * total as real;
      assert (4 * whole) as real == 4.0 * whole as real;
    } else {
      assert whole == 0;
    }
  }

  /** A ratio over a positive room reaches 0.8 exactly when five times the part reaches four times the room. */
  lemma RatioBound(part: real, room: real)
    requires room > 0.0
    ensures part / room >= 0.8 <==> 5.0 * part >= 4.0 * room
  {
    var ratio := part / room;
    assert ratio * room == part;
    if ratio >= 0.8 {
      MultiplyMonotone(0.8, ratio, room);
    } else {
      MultiplyStrict(ratio, 0.8, room);
    }
  }

  lemma MultiplySucc(a: int, b: int)
    ensures a * (b + 1) == a * b + a
  {
  }

  lemma MultiplyPositive(a: int, b: int)
    requires a > 0 && b > 0
    ensures a * b > 0
  {
  }

  lemma MultiplyMonotone(a: real, b: real, c: real)
    requires a <= b && c > 0.0
    ensures a * c <= b * c
  {
  }

  lemma MultiplyStrict(a: real, b: real, c: real)
    requires a < b && c > 0.0
    ensures a * c < b * c
  {
  }

  /** 801 characters in the one buffer of capacity 1000 raise the warning; 799 do not. */
  lemma WarningThresholdExample()
    ensures Warns(801, 1000, 1) && Warns(800, 1000, 1) && !Warns(799, 1000, 1)
  {
    WarnsIff(801, 1000, 1);
    WarnsIff(800, 1000, 1);
    WarnsIff(799, 1000, 1);
  }

  /** An empty registry never warns. */
  lemma NoBuffersNoWarning(cap: int)
    requires cap > 0
    ensures !Warns(0, cap, 0)
  {
    WarnsIff(0, cap, 0);
  }

  // ---------------------------------------------------------------------
  // The registry.

  lemma ReplaceTwice(m: map<string, string>, k: string, a: string, b: string)
    ensures m[k := a][k := b] == m[k := b]
  {
  }

  /** `BufferLimitService`. */
  class BufferLimitService {
    var maxBufferSize: int
    var buffers: map<string, CircularBuffer>

    /**
     * The capacity is positive, distinct sessions never share a buffer
     * object, and every buffer has the current capacity and keeps to it.
     */
    ghost predicate Valid()
      reads this, buffers.Values
    {
      && maxBufferSize > 0
      && (forall a, b | a in buffers && b in buffers && a != b :: buffers[a] != buffers[b])
      && (forall id | id in buffers :: buffers[id].maxSize == maxBufferSize && |buffers[id].buffer| <= maxBufferSize)
    }

    /** The text held for each session. */
    function Contents(): map<string, string>
      reads this, buffers.Values
    {
      map id | id in buffers :: buffers[id].buffer
    }

    /** No buffer holds more than the capacity. */
    lemma ContentsBounded()
      requires Valid()
      ensures forall id | id in Contents() :: |Contents()[id]| <= maxBufferSize
    {
    }

    constructor()
      ensures Valid() && maxBufferSize == DefaultMaxBufferSize && buffers == map[]
    {
      maxBufferSize := DefaultMaxBufferSize;
      buffers := map[];
    }

    /** `getMaxBufferSize`. */
    function GetMaxBufferSize(): (n: int)
      requires Valid()
      reads this, buffers.Values
      ensures n > 0 && n == maxBufferSize
    {
      maxBufferSize
    }

    /** One step of `setMaxBufferSize`: the session gets a fresh buffer of capacity `size` holding the old content. */
    method Rebuild(id: string, size: int)
      requires id in buffers
      requires forall a, b | a in buffers && b in buffers && a != b :: buffers[a] != buffers[b]
      modifies this
      ensures forall a, b | a in buffers && b in buffers && a != b :: buffers[a] != buffers[b]
      ensures maxBufferSize == old(maxBufferSize) && buffers.Keys == old(buffers.Keys)
      ensures forall k | k in buffers && k != id :: buffers[k] == old(buffers[k])
      ensures fresh(buffers[id]) && buffers[id].maxSize == size
      ensures buffers[id].buffer == Tail(old(buffers[id].buffer), size)
    {
      var rebuilt := new CircularBuffer(size);
      rebuilt.Append(buffers[id].buffer);
      buffers := buffers[id := rebuilt];
    }

    /**
     * `setMaxBufferSize`: a size that is not positive is refused and nothing
     * changes; otherwise the capacity becomes `size` and every session's
     * buffer is replaced by a fresh one holding the newest `size` characters
     * of the old content.
     */
    method SetMaxBufferSize(size: int) returns (r: Outcome<string>)
      requires Valid()
      modifies this
      ensures Valid()
      ensures size <= 0 ==> r == Fail(NonPositiveSizeError) && maxBufferSize == old(maxBufferSize) && buffers == old(buffers)
      ensures size > 0 ==> r == Pass && maxBufferSize == size
      ensures size > 0 ==> buffers.Keys == old(buffers.Keys) && Contents() == Resized(old(Contents()), size)
      ensures size > 0 ==> forall id | id in buffers :: fresh(buffers[id])
    {
      if size <= 0 {
        return Fail(NonPositiveSizeError);
      }
      maxBufferSize := size;
      RebuildAll();
      return Pass;
    }

    /** The loop of `setMaxBufferSize`: every buffer is rebuilt at the capacity just set. */
    method RebuildAll()
      requires maxBufferSize > 0
      requires forall a, b | a in buffers && b in buffers && a != b :: buffers[a] != buffers[b]
      modifies this
      ensures maxBufferSize == old(maxBufferSize) && buffers.Keys == old(buffers.Keys)
      ensures forall a, b | a in buffers && b in buffers && a != b :: buffers[a] != buffers[b]
      ensures forall id | id in buffers ::
        fresh(buffers[id]) && buffers[id].maxSize == maxBufferSize &&
        buffers[id].buffer == Tail(old(Contents())[id], maxBufferSize)
    {
      ghost var before := buffers;
      ghost var oldContents := Contents();
      var pending := buffers.Keys;
      while pending != {}
        invariant pending <= buffers.Keys == before.Keys
        invariant maxBufferSize == old(maxBufferSize)
        invariant forall id | id in pending :: buffers[id] == before[id]
        invariant forall id | id in buffers && id !in pending ::
          fresh(buffers[id]) && buffers[id].maxSize == maxBufferSize &&
          buffers[id].buffer == Tail(oldContents[id], maxBufferSize)
        invariant forall a, b | a in buffers && b in buffers && a != b :: buffers[a] != buffers[b]
        decreases pending
      {
        var id :| id in pending;
        Rebuild(id, maxBufferSize);
        pending := pending - {id};
      }
    }

    /** `createBuffer`: a new empty buffer at the current capacity, replacing any earlier one. */
    method CreateBuffer(id: string) returns (b: CircularBuffer)
      requires Valid()
      modifies this
      ensures Valid() && fresh(b) && maxBufferSize == old(maxBufferSize)
      ensures buffers == old(buffers)[id := b]
      ensures Contents() == old(Contents())[id := []]
    {
      b := new CircularBuffer(maxBufferSize);
      buffers := buffers[id := b];
    }

    /** `getBuffer`. */
    function GetBuffer(id: string): (r: Option<CircularBuffer>)
      reads this
      ensures r.Some? <==> id in buffers
      ensures r.Some? ==> r.value == buffers[id]
    {
      if id in buffers then Some(buffers[id]) else None
    }

    /** `buffer.append(data)` on a buffer the registry holds: only that session's content changes. */
    method AppendExisting(id: string, data: string)
      requires Valid() && id in buffers
      modifies buffers[id]
      ensures Valid()
      ensures Contents() == old(Contents())[id := Tail(old(Contents())[id] + data, maxBufferSize)]
    {
      var b := buffers[id];
      b.Append(data);
      assert forall k | k in buffers && k != id :: buffers[k] != b;
    }

    /** The first step of `appendToBuffer`: a missing buffer is created, an existing one kept. */
    method EnsureBuffer(id: string)
      requires Valid()
      modifies this
      ensures Valid() && maxBufferSize == old(maxBufferSize) && id in buffers
      ensures buffers.Keys == old(buffers.Keys) + {id}
      ensures id in old(buffers) ==> buffers == old(buffers)
      ensures Contents() == old(Contents())[id := if id in old(buffers) then old(Contents())[id] else []]
      ensures id in old(buffers) || fresh(buffers[id])
    {
      if id !in buffers {
        var _ := CreateBuffer(id);
      }
    }

    /** `appendToBuffer` without its memory check: the buffer, created first when missing, receives `data`. */
    method AppendData(id: string, data: string)
      requires Valid()
      modifies this, buffers.Values
      ensures Valid() && maxBufferSize == old(maxBufferSize)
      ensures buffers.Keys == old(buffers.Keys) + {id}
      ensures Contents() ==
        old(Contents())[id := Tail((if id in old(buffers) then old(Contents())[id] else []) + data, maxBufferSize)]
    {
      ghost var before := Contents();
      ghost var start := if id in buffers then before[id] else [];
      EnsureBuffer(id);
      ghost var ready := Contents();
      assert ready == before[id := start] && ready[id] == start;
      AppendExisting(id, data);
      ReplaceTwice(before, id, start, Tail(start + data, maxBufferSize));
    }

    /**
     * `appendToBuffer`: the session's buffer, created first when missing,
     * receives `data`; `warning` says whether the memory warning is logged.
     */
    method AppendToBuffer(id: string, data: string) returns (warning: bool)
      requires Valid()
      modifies this, buffers.Values
      ensures Valid() && maxBufferSize == old(maxBufferSize)
      ensures buffers.Keys == old(buffers.Keys) + {id}
      ensures Contents() ==
        old(Contents())[id := Tail((if id in old(buffers) then old(Contents())[id] else []) + data, maxBufferSize)]
      ensures warning <==> Warns(TotalLength(Contents()), maxBufferSize, |buffers|)
    {
      AppendData(id, data);
      warning := IsMemoryWarning();
    }

    /** `clearBuffer`: empties the session's buffer if there is one. */
    method ClearBuffer(id: string)
      requires Valid()
      modifies buffers.Values
      ensures Valid() && buffers == old(buffers)
      ensures Contents() == if id in buffers then old(Contents())[id := []] else old(Contents())
    {
      if id in buffers {
        buffers[id].Clear();
      }
    }

    /** `deleteBuffer`: forgets the session, if it is known. */
    method DeleteBuffer(id: string)
      requires Valid()
      modifies this
      ensures Valid() && maxBufferSize == old(maxBufferSize)
      ensures buffers == old(buffers) - {id}
      ensures Contents() == old(Contents()) - {id}
    {
      buffers := buffers - {id};
    }

    /** `cleanupAll`. */
    method CleanupAll()
      requires Valid()
      modifies this
      ensures Valid() && maxBufferSize == old(maxBufferSize) && buffers == map[]
    {
      buffers := map[];
    }

    /**
     * `getMemoryStats`: the number of buffers, the sum of their sizes, the
     * mean size (0 without buffers) and the capacity.
     */
    method GetMemoryStats() returns (stats: MemoryStats)
      requires Valid()
      ensures stats.totalBuffers == |buffers| && stats.maxBufferSize == maxBufferSize
      ensures stats.totalMemoryUsage == TotalLength(Contents())
      ensures stats.totalMemoryUsage <= maxBufferSize * stats.totalBuffers
      ensures stats.averageBufferSize == Mean(stats.totalMemoryUsage, stats.totalBuffers)
    {
      var contents := Contents();
      var total := 0;
      var rest := contents;
      while rest != map[]
        invariant total + TotalLength(rest) == TotalLength(contents)
        decreases |rest|
      {
        var id :| id in rest;
        TotalLengthRemove(rest, id);
        total := total + |rest[id]|;
        rest := rest - {id};
      }
      TotalLengthBound(contents, maxBufferSize);
      var count := |buffers|;
      assert |contents| == count by {
        assert contents.Keys == buffers.Keys;
      }
      var average := if count > 0 then total as real / count as real else 0.0;
      stats := MemoryStats(count, total, average, maxBufferSize);
    }

    /** `isMemoryWarning`. */
    method IsMemoryWarning() returns (w: bool)
      requires Valid()
      ensures w <==> Warns(TotalLength(Contents()), maxBufferSize, |buffers|)
    {
      var stats := GetMemoryStats();
      w := Warns(stats.totalMemoryUsage, maxBufferSize, stats.totalBuffers);
      WarnsIff(stats.totalMemoryUsage, maxBufferSize, stats.totalBuffers);
    }
  }
}
