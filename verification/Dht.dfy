/**
 The pulse-width decoder `readData` of chapter3/wiringdht/wiringdth.c.

 The sensor's data line is an arbitrary infinite stream of samples, one consumed by each
 `digitalRead`.  `Bits` is the bit stream the decoder extracts; `ReadData` is the loop nest
 itself.  The round trip is stated for every waveform with the sensor's edge pattern and any
 pulse lengths on the right side of the threshold.
 */
module Dht {
  import opened Levels

  type Line = nat -> bool   // levels

  const MAX_COUNT := 85
  const TIMEOUT := 255

  // ---------- what the loop nest extracts ----------

  /** Number of consecutive samples equal to s from p on, counting at most cap of them. */
  function RunLength(line: Line, p: nat, s: bool, cap: nat): (n: nat)
    ensures n <= cap
    decreases cap, p
  {
    if cap == 0 || line(p) != s then 0 else 1 + RunLength(line, p + 1, s, cap - 1)
  }

  predicate DataEdge(i: nat) {
    i >= 4 && i % 2 == 0
  }

  // What edge i contributes when its run was counted as n samples.
  function EdgeBits(i: nat, n: nat): seq<bool> {
    if DataEdge(i) then [n > 16] else []
  }

  /** The counts of the edges that complete from edge i on, waiting at level s with p the
      next sample, up to the first timeout.  A completed edge eats one sample past its run,
      and the re-read one more. */
  function Counts(line: Line, i: nat, s: bool, p: nat): seq<nat>
    decreases MAX_COUNT - i, p
  {
    if i >= MAX_COUNT then []
    else
      var n := RunLength(line, p, s, TIMEOUT);
      if n == TIMEOUT then [] else [n] + Counts(line, i + 1, line(p + n + 1), p + n + 2)
  }

  // The bits stored for the counts of edges 0, 1, 2, ...
  function BitsOf(counts: seq<nat>): seq<bool>
    decreases |counts|
  {
    if counts == [] then []
    else
      var i := |counts| - 1;
      BitsOf(counts[..i]) + EdgeBits(i, counts[i])
  }

  /** How many edges complete before one times out, and the bits they give. */
  function Edges(line: Line, p: nat): nat {
    |Counts(line, 0, HIGH, p)|
  }

  function Bits(line: Line, p: nat): seq<bool> {
    BitsOf(Counts(line, 0, HIGH, p))
  }

  lemma {:induction false} CountsBound(line: Line, i: nat, s: bool, p: nat)
    requires i <= MAX_COUNT
    ensures |Counts(line, i, s, p)| <= MAX_COUNT - i
    decreases MAX_COUNT - i
  {
    var n := RunLength(line, p, s, TIMEOUT);
    if i == MAX_COUNT || n == TIMEOUT {
    } else {
      CountsBound(line, i + 1, line(p + n + 1), p + n + 2);
    }
  }

  lemma {:induction false} BitsCount(counts: seq<nat>)
    ensures |BitsOf(counts)| == if |counts| <= 4 then 0 else (|counts| - 3) / 2
    decreases |counts|
  {
    if counts == [] {
    } else {
      BitsCount(counts[..|counts| - 1]);
    }
  }

  /** The five-byte array overruns, by one bit, exactly when all 85 edges complete; a reading
      reaches 40 bits exactly when at least 83 do. */
  lemma OverrunExactlyWithoutTimeout(line: Line, p: nat)
    ensures var e, n := Edges(line, p), |Bits(line, p)|;
      e <= 85 && (n > 40 <==> e == 85) && (n >= 40 <==> e >= 83) && n <= 41
  {
    CountsBound(line, 0, HIGH, p);
    BitsCount(Counts(line, 0, HIGH, p));
  }

  lemma BitsOfAppend(counts: seq<nat>, n: nat)
    ensures BitsOf(counts + [n]) == BitsOf(counts) + EdgeBits(|counts|, n)
  {
    var all, k := counts + [n], |counts|;
    assert all[..k] == counts && all[k] == n && |all| - 1 == k;
  }

  // ---------- bytes ----------

  /** The number the shift-and-or loop builds from bits, most significant first. */
  function Pack(bits: seq<bool>): nat {
    if |bits| == 0 then 0
    else 2 * Pack(bits[..|bits| - 1]) + (if bits[|bits| - 1] then 1 else 0)
  }

  function Unpack(v: nat, n: nat): (bits: seq<bool>)
    ensures |bits| == n
  {
    if n == 0 then [] else Unpack(v / 2, n - 1) + [v % 2 == 1]
  }

  function Pow2(n: nat): nat {
    if n == 0 then 1 else 2 * Pow2(n - 1)
  }

  lemma {:induction false} PackUnpack(v: nat, n: nat)
    requires v < Pow2(n)
    ensures Pack(Unpack(v, n)) == v
  {
    if n == 0 {
    } else {
      PackUnpack(v / 2, n - 1);
      assert Unpack(v, n)[..n - 1] == Unpack(v / 2, n - 1);
    }
  }

  lemma PackLast(bits: seq<bool>)
    requires bits != []
    ensures var init := bits[..|bits| - 1]; Pack(bits) / 2 == Pack(init)
    ensures (Pack(bits) % 2 == 1) == bits[|bits| - 1]
  {
    var h := Pack(bits[..|bits| - 1]);
    var b := if bits[|bits| - 1] then 1 else 0;
    assert Pack(bits) == 2 * h + b;
  }

  lemma {:induction false} PackBound(bits: seq<bool>)
    ensures Pack(bits) < Pow2(|bits|)
  {
    if bits == [] {
    } else {
      PackBound(bits[..|bits| - 1]);
    }
  }

  lemma {:induction false} UnpackPack(bits: seq<bool>)
    ensures Pack(bits) < Pow2(|bits|)
    ensures Unpack(Pack(bits), |bits|) == bits
  {
    PackBound(bits);
    if bits == [] {
    } else {
      var n := |bits| - 1;
      var init := bits[..n];
      UnpackPack(init);
      PackLast(bits);
      assert Unpack(Pack(bits), n + 1) == Unpack(Pack(init), n) + [bits[n]];
      assert bits == init + [bits[n]];
    }
  }

  function Clip(n: nat, m: nat): nat {
    if n < m then n else m
  }

  /** The value of array element b after the given bits. */
  function ByteOf(bits: seq<bool>, b: nat): nat {
    Pack(bits[Clip(8 * b, |bits|)..Clip(8 * b + 8, |bits|)])
  }

  lemma PackAppend(bits: seq<bool>, x: bool)
    ensures Pack(bits + [x]) == 2 * Pack(bits) + (if x then 1 else 0)
  {
    assert (bits + [x])[..|bits|] == bits;
  }

  lemma ByteOfAppend(bits: seq<bool>, x: bool, b: nat)
    ensures b == |bits| / 8 ==> ByteOf(bits + [x], b) == 2 * ByteOf(bits, b) + (if x then 1 else 0)
    ensures b != |bits| / 8 ==> ByteOf(bits + [x], b) == ByteOf(bits, b)
  {
    var more := bits + [x];
    var n := |bits|;
    if b == n / 8 {
      assert more[8 * b..n + 1] == bits[8 * b..n] + [x];
      PackAppend(bits[8 * b..n], x);
    } else {
      assert more[Clip(8 * b, n + 1)..Clip(8 * b + 8, n + 1)] == bits[Clip(8 * b, n)..Clip(8 * b + 8, n)];
    }
  }

  // The C operators & and | on non-negative values, bit by bit.
  function BitAnd(a: nat, b: nat): nat {
    if a == 0 || b == 0 then 0 else 2 * BitAnd(a / 2, b / 2) + (if a % 2 == 1 && b % 2 == 1 then 1 else 0)
  }

  function BitOr(a: nat, b: nat): nat {
    if a == 0 then b
    else if b == 0 then a
    else 2 * BitOr(a / 2, b / 2) + (if a % 2 == 1 || b % 2 == 1 then 1 else 0)
  }

  /** Together the two operators add: each bit set in one operand is in the or, and each set in
      both is counted again in the and. */
  lemma {:induction false} OrAndSum(a: nat, b: nat)
    ensures BitOr(a, b) + BitAnd(a, b) == a + b
  {
    if a == 0 || b == 0 {
    } else {
      OrAndSum(a / 2, b / 2);
      assert a == 2 * (a / 2) + a % 2 && b == 2 * (b / 2) + b % 2;
    }
  }

  lemma OrOneAfterShift(v: nat)
    ensures BitOr(2 * v, 1) == 2 * v + 1
  {
    assert 1 / 2 == 0;
    assert BitOr(v, 0) == v;
  }

  lemma TimesAtLeast(d: int, m: nat)
    requires d >= 1
    ensures d * m >= m
  {
  }

  lemma ModUnique(a: nat, m: nat, q: nat, r: nat)
    requires r < m && a == q * m + r
    ensures a % m == r
  {
    var d := a / m - q;
    assert d * m == (a / m) * m - q * m == r - a % m;
    if d >= 1 {
      TimesAtLeast(d, m);
    } else if d <= -1 {
      TimesAtLeast(-d, m);
    }
  }

  // Dividing in two steps.
  lemma ModTwice(a: nat, m: nat)
    requires m > 0
    ensures a % (2 * m) == 2 * ((a / 2) % m) + a % 2
  {
    var h, b := a / 2, a % 2;
    var q, r := h / m, h % m;
    assert h == q * m + r;
    assert a == q * (2 * m) + (2 * r + b);
    ModUnique(a, 2 * m, q, 2 * r + b);
  }

  /** Masking with n ones keeps the value modulo 2^n. */
  lemma {:induction false} MaskIsMod(a: nat, n: nat)
    ensures Pow2(n) >= 1 && BitAnd(a, Pow2(n) - 1) == a % Pow2(n)
  {
    if n == 0 {
    } else {
      MaskIsMod(a / 2, n - 1);
      var m := Pow2(n - 1);
      assert (2 * m - 1) / 2 == m - 1 && (2 * m - 1) % 2 == 1;
      ModTwice(a, m);
    }
  }

  lemma ByteMask(a: nat)
    ensures BitAnd(a, 0xFF) == a % 256
  {
    assert Pow2(8) == 256;
    MaskIsMod(a, 8);
  }

  /** The acceptance condition: forty bits, and the last byte the sum of the others mod 256. */
  predicate Accepts(v: seq<int>, received: nat)
    requires |v| == 5
  {
    received >= 40 && v[4] == (v[0] + v[1] + v[2] + v[3]) % 256
  }

  function Values(bits: seq<bool>): (v: seq<int>)
    ensures |v| == 5
  {
    seq(5, b requires 0 <= b < 5 => ByteOf(bits, b))
  }

  // ---------- the program ----------

  lemma MoveOver<T>(a: seq<T>, b: seq<T>)
    requires b != []
    ensures (a + [b[0]]) + b[1..] == a + b
  {
  }

  class Sensor {
    const line: Line
    var pos: nat             // samples consumed so far
    const dhtVal: array<int>

    ghost predicate Valid() {
      dhtVal.Length == 5
    }

    constructor (line: Line)
      ensures Valid() && this.line == line && pos == 0 && fresh(dhtVal)
    {
      this.line := line;
      pos := 0;
      dhtVal := new int[5](_ => 0);
    }

    method DigitalRead() returns (level: bool)
      modifies this`pos
      ensures level == line(old(pos)) && pos == old(pos) + 1
    {
      level := line(pos);
      pos := pos + 1;
    }

    // Lines 33-41: count samples equal to state, giving up at 255.
    method CountRun(state: bool) returns (counter: nat)
      modifies this`pos
      ensures counter == RunLength(line, old(pos), state, TIMEOUT)
      ensures counter <= 255 && forall q :: old(pos) <= q < old(pos) + counter ==> line(q) == state
      ensures counter < 255 ==> line(old(pos) + counter) != state
      ensures pos == old(pos) + counter + (if counter == 255 then 0 else 1)
    {
      counter := 0;
      var level := DigitalRead();
      while level == state
        invariant counter < TIMEOUT && pos == old(pos) + counter + 1 && level == line(pos - 1)
        invariant forall q :: old(pos) <= q < old(pos) + counter ==> line(q) == state
        invariant RunLength(line, old(pos), state, TIMEOUT)
               == counter + RunLength(line, pos - 1, state, TIMEOUT - counter)
        decreases TIMEOUT - counter
      {
        counter := counter + 1;
        if counter == TIMEOUT {
          break;
        }
        level := DigitalRead();
      }
    }

    // Lines 33-42: count a run, then read the level to wait for next.
    method CountAndReread(i: nat, state: bool, ghost rest: seq<nat>) returns (counter: nat, state': bool)
      requires i < MAX_COUNT && rest == Counts(line, i, state, pos)
      modifies this`pos
      ensures counter == TIMEOUT <==> rest == []
      ensures rest != [] ==> counter == rest[0] && rest[1..] == Counts(line, i + 1, state', pos)
    {
      counter := CountRun(state);
      state' := DigitalRead();
    }

    // Lines 50-54: shift the next bit into its byte.
    method ShiftIn(j: nat, one: bool, ghost bits: seq<bool>)
      requires Valid() && j == |bits| < 40 && dhtVal[..] == Values(bits)
      modifies dhtVal
      ensures dhtVal[..] == Values(bits + [one])
    {
      ghost var v := ByteOf(bits, j / 8);
      assert dhtVal[j / 8] == Values(bits)[j / 8] == v;
      dhtVal[j / 8] := dhtVal[j / 8] * 2;   // <<= 1
      if one {
        OrOneAfterShift(v);
        dhtVal[j / 8] := BitOr(dhtVal[j / 8], 1);
      }
      forall b: nat | b < 5
        ensures dhtVal[b] == Values(bits + [one])[b]
      {
        ByteOfAppend(bits, one, b);
        assert b != j / 8 ==> dhtVal[b] == Values(bits)[b];
      }
    }

    // Lines 17-20.
    method Clear()
      requires Valid()
      modifies dhtVal
      ensures dhtVal[..] == Values([])
    {
      for i := 0 to 5
        invariant forall b :: 0 <= b < i ==> dhtVal[b] == 0
      {
        dhtVal[i] := 0;
      }
    }

    // Line 59, with its bitwise mask.
    method Acceptable(j: nat) returns (ok: bool)
      requires Valid() && forall b :: 0 <= b < 5 ==> dhtVal[b] >= 0
      ensures ok == Accepts(dhtVal[..], j)
    {
      var sum := dhtVal[0] + dhtVal[1] + dhtVal[2] + dhtVal[3];
      ByteMask(sum);
      ok := j >= 40 && dhtVal[4] == BitAnd(sum, 0xFF);
    }

    // What the loop holds after the edges with the given counts.
    ghost predicate Holding(done: seq<nat>, j: nat)
      reads dhtVal
    {
      && Valid() && j == |BitsOf(done)| && dhtVal[..] == Values(BitsOf(done))
    }

    // Lines 48-56.
    method StoreCount(i: nat, counter: nat, j: nat, ghost done: seq<nat>) returns (j': nat)
      requires i == |done| && i + 1 < MAX_COUNT && Holding(done, j)
      modifies dhtVal
      ensures Holding(done + [counter], j')
    {
      j' := j;
      BitsOfAppend(done, counter);
      BitsCount(done + [counter]);
      if i >= 4 && i % 2 == 0 {
        ShiftIn(j, counter > 16, BitsOf(done));
        j' := j + 1;
      } else {
        assert BitsOf(done + [counter]) == BitsOf(done);
      }
    }

    // The loop body, lines 31-56; `more` is false where it breaks.
    method OneEdge(i: nat, state: bool, j: nat, ghost done: seq<nat>, ghost rest: seq<nat>)
      returns (more: bool, state': bool, j': nat, ghost left: seq<nat>)
      requires i < MAX_COUNT && i == |done| && Holding(done, j)
      requires rest == Counts(line, i, state, pos) && i + |rest| < MAX_COUNT
      modifies this`pos, dhtVal
      ensures more <==> rest != []
      ensures if more then Holding(done + [rest[0]], j') && left == rest[1..] else Holding(done, j') && left == []
      ensures more ==> left == Counts(line, i + 1, state', pos)
    {
      var counter;
      counter, state' := CountAndReread(i, state, rest);
      j', left := j, [];
      more := counter != TIMEOUT;
      if more {
        left := rest[1..];
        j' := StoreCount(i, counter, j, done);
      }
    }

    /** The precondition is that the line times out somewhere in the 85 edges; otherwise the
        source stores a 41st bit in a sixth array element. */
    method ReadData() returns (received: nat, ok: bool)
      requires Valid() && Edges(line, pos) < 85
      modifies this`pos, dhtVal
      ensures received == |Bits(line, old(pos))|
      ensures dhtVal[..] == Values(Bits(line, old(pos)))
      ensures ok == Accepts(dhtVal[..], received)
    {
      ghost var all := Counts(line, 0, HIGH, pos);
      ghost var done, rest: seq<nat> := [], all;
      var state := HIGH;
      var j := 0;
      Clear();
      assert done + rest == all;
      var i := 0;
      var more := true;
      while i < MAX_COUNT && more
        invariant i == |done| && i <= MAX_COUNT && done + rest == all && Holding(done, j)
        invariant if more then rest == Counts(line, i, state, pos) else rest == []
        decreases MAX_COUNT - i, more
      {
        ghost var coming := rest;
        more, state, j, rest := OneEdge(i, state, j, done, rest);
        if more {
          MoveOver(done, coming);
          done := done + [coming[0]];
          i := i + 1;
        }
      }
      assert done == all;
      received := j;
      ok := Acceptable(j);
    }
  }

  // ---------- waveforms ----------

  // Sample index at which run k starts.
  function RunStart(p: nat, lens: seq<nat>, k: nat): nat
    requires k <= |lens|
  {
    if k == 0 then p else RunStart(p, lens, k - 1) + lens[k - 1]
  }

  // Every sample in [from, to) is at level s.
  ghost predicate Level(line: Line, from: nat, to: nat, s: bool) {
    forall q :: from <= q < to ==> line(q) == s
  }

  // Run k has the level of its parity throughout.
  ghost predicate RunAt(line: Line, p: nat, lens: seq<nat>, k: nat)
    requires k < |lens|
  {
    var a := RunStart(p, lens, k);
    Level(line, a, a + lens[k], k % 2 == 0)
  }

  // 84 runs none of which times out; two samples of every run after the first are eaten by
  // its predecessor's edge, so those runs need at least two samples.
  predicate Countable(lens: seq<nat>) {
    |lens| == 84 && lens[0] < 255 && forall k :: 1 <= k < 84 ==> 2 <= lens[k] <= 256
  }

  /** The sensor's edge pattern: 84 runs of alternating level, HIGH first, followed by an
      idle HIGH long enough to time out. */
  ghost predicate Waveform(line: Line, p: nat, lens: seq<nat>) {
    && Countable(lens)
    && (forall k :: 0 <= k < 84 ==> RunAt(line, p, lens, k))
    && Level(line, RunStart(p, lens, 84), RunStart(p, lens, 84) + 257, HIGH)
  }

  // The high run that carries data bit k.
  function BitRun(lens: seq<nat>, k: nat): nat
    requires |lens| == 84 && k < 40
  {
    lens[4 + 2 * k]
  }

  // What the decoder counts: the first run whole, two samples less of every later one.
  function WaveCounts(lens: seq<nat>): seq<nat>
    requires Countable(lens)
  {
    seq(84, k requires 0 <= k < 84 => if k == 0 then lens[0] else lens[k] - 2)
  }

  lemma WaveCountsFrom(lens: seq<nat>, i: nat)
    requires Countable(lens) && 1 <= i < 84
    ensures WaveCounts(lens)[i..] == [lens[i] - 2] + WaveCounts(lens)[i + 1..]
  {
  }

  /** Bit k is decided by the count of edge 4 + 2k. */
  lemma {:induction false} BitAt(counts: seq<nat>, k: nat)
    requires 4 + 2 * k < |counts|
    ensures k < |BitsOf(counts)| && BitsOf(counts)[k] == (counts[4 + 2 * k] > 16)
    decreases |counts|
  {
    var n := |counts| - 1;
    if 4 + 2 * k < n {
      BitAt(counts[..n], k);
    } else {
      BitsCount(counts[..n]);
    }
  }

  lemma {:induction false} RunLengthExact(line: Line, p: nat, s: bool, cap: nat, n: nat)
    requires n <= cap && Level(line, p, p + n, s)
    requires n < cap ==> line(p + n) != s
    ensures RunLength(line, p, s, cap) == n
    decreases cap
  {
    if n == 0 {
    } else {
      assert line(p) == s;
      RunLengthExact(line, p + 1, s, cap - 1, n - 1);
    }
  }

  /** A run of fewer than 255 samples is one counted edge, and the sample after the one that
      ends it sets the level waited for next. */
  lemma EdgeStep(line: Line, i: nat, s: bool, p: nat, n: nat)
    requires i < 85 && n < 255
    requires Level(line, p, p + n, s) && line(p + n) != s
    ensures Counts(line, i, s, p) == [n] + Counts(line, i + 1, line(p + n + 1), p + n + 2)
  {
    RunLengthExact(line, p, s, TIMEOUT, n);
  }

  /** With two samples of the other level after the run, that is the next level. */
  lemma EdgeCompletes(line: Line, i: nat, s: bool, p: nat, n: nat)
    requires i < 85 && n < 255
    requires Level(line, p, p + n, s) && line(p + n) != s && line(p + n + 1) != s
    ensures Counts(line, i, s, p) == [n] + Counts(line, i + 1, !s, p + n + 2)
  {
    EdgeStep(line, i, s, p, n);
  }

  /** A glitch of one sample splits a run: it ends one edge, and the next one waits at the same
      level and counts the samples after it but the first. */
  lemma GlitchSplitsRun(line: Line, i: nat, s: bool, p: nat, n: nat, next: nat, m: nat)
    requires i < 84 && n < 255 && m < 255 && next == p + n + 2
    requires Level(line, p, p + n, s) && line(p + n) != s && line(p + n + 1) == s
    requires Level(line, next, next + m, s) && line(next + m) != s
    ensures Counts(line, i, s, p) ==
      [n] + ([m] + Counts(line, i + 2, line(next + m + 1), next + m + 2))
  {
    EdgeStep(line, i, s, p, n);
    EdgeStep(line, i + 1, s, next, m);
  }

  /** 255 samples at the level waited for end the reading. */
  lemma EdgeTimesOut(line: Line, i: nat, s: bool, p: nat)
    requires i < 85 && Level(line, p, p + 255, s)
    ensures Counts(line, i, s, p) == []
  {
    RunLengthExact(line, p, s, TIMEOUT, TIMEOUT);
  }

  // A line that changes level every two samples.
  function Flicker(): Line {
    (q: nat) => (q / 2) % 2 == 0
  }

  lemma FlickerAt(i: nat, p: nat)
    requires p == 2 * i + 2
    ensures Flicker()(p) == Flicker()(p + 1) == (i % 2 != 0)
  {
    assert p / 2 == i + 1 == (p + 1) / 2;
  }

  // An edge that finds the level changed already counts nothing.
  lemma EmptyEdge(line: Line, i: nat, s: bool, p: nat)
    requires i < 85 && line(p) != s && line(p + 1) != s
    ensures |Counts(line, i, s, p)| == 1 + |Counts(line, i + 1, !s, p + 2)|
  {
    EdgeCompletes(line, i, s, p, 0);
  }

  lemma {:induction false} FlickerCounts(line: Line, i: nat, s: bool, p: nat)
    requires line == Flicker() && 1 <= i <= MAX_COUNT && s == (i % 2 == 0) && p == 2 * i + 2
    ensures |Counts(line, i, s, p)| == MAX_COUNT - i
    decreases MAX_COUNT - i
  {
    if i < MAX_COUNT {
      FlickerAt(i, p);
      EmptyEdge(line, i, s, p);
      FlickerCounts(line, i + 1, !s, p + 2);
    }
  }

  /** A line that overruns the array: no edge of it times out, so a 41st bit arrives. */
  lemma FlickerOverruns()
    ensures Edges(Flicker(), 0) == 85 && |Bits(Flicker(), 0)| == 41
  {
    EdgeCompletes(Flicker(), 0, HIGH, 0, 2);
    FlickerCounts(Flicker(), 1, LOW, 4);
    OverrunExactlyWithoutTimeout(Flicker(), 0);
    BitsCount(Counts(Flicker(), 0, HIGH, 0));
  }

  // The first two samples of run k, which edge k-1 consumes.
  lemma RunBegins(line: Line, p: nat, lens: seq<nat>, k: nat)
    requires Waveform(line, p, lens) && 1 <= k <= 84
    ensures RunStart(p, lens, k) == RunStart(p, lens, k - 1) + lens[k - 1]
    ensures line(RunStart(p, lens, k)) == (k % 2 == 0) && line(RunStart(p, lens, k) + 1) == (k % 2 == 0)
  {
    if k < 84 {
      assert RunAt(line, p, lens, k);
    }
  }

  // The run's level and the first two samples of the next one.
  lemma RunShape(line: Line, p: nat, lens: seq<nat>, i: nat, start: nat, next: nat)
    requires Waveform(line, p, lens) && 1 <= i < 84
    requires start == RunStart(p, lens, i) && next == RunStart(p, lens, i + 1)
    ensures next == start + lens[i] && 2 <= lens[i] <= 256
    ensures Level(line, start, start + lens[i], i % 2 == 0)
    ensures line(next) == (i % 2 != 0) && line(next + 1) == (i % 2 != 0)
  {
    assert RunAt(line, p, lens, i);
    RunBegins(line, p, lens, i + 1);
  }

  /** A later run of L samples, whose first two its predecessor consumed, counts as L - 2. */
  lemma LaterEdge(line: Line, i: nat, s: bool, start: nat, len: nat, next: nat)
    requires next == start + len
    requires i < 85 && 2 <= len <= 256 && Level(line, start, start + len, s)
    requires line(next) != s && line(next + 1) != s
    ensures Counts(line, i, s, start + 2) == [len - 2] + Counts(line, i + 1, !s, next + 2)
  {
    assert Level(line, start + 2, start + 2 + (len - 2), s);
    EdgeCompletes(line, i, s, start + 2, len - 2);
  }

  lemma IdleTimesOut(line: Line, p: nat, lens: seq<nat>)
    requires Waveform(line, p, lens)
    ensures Counts(line, 84, HIGH, RunStart(p, lens, 84) + 2) == []
  {
    EdgeTimesOut(line, 84, HIGH, RunStart(p, lens, 84) + 2);
  }

  lemma WaveformEdge(line: Line, p: nat, lens: seq<nat>, i: nat, s: bool, start: nat, next: nat)
    requires Waveform(line, p, lens) && 1 <= i < 84 && s == (i % 2 == 0)
    requires start == RunStart(p, lens, i) && next == RunStart(p, lens, i + 1)
    ensures lens[i] >= 2
    ensures Counts(line, i, s, start + 2) == [lens[i] - 2] + Counts(line, i + 1, !s, next + 2)
  {
    RunShape(line, p, lens, i, start, next);
    LaterEdge(line, i, s, start, lens[i], next);
  }

  lemma {:induction false} LaterEdges(line: Line, p: nat, lens: seq<nat>, i: nat, s: bool, start: nat)
    requires Waveform(line, p, lens) && 1 <= i <= 84 && s == (i % 2 == 0)
    requires start == RunStart(p, lens, i)
    ensures Counts(line, i, s, start + 2) == WaveCounts(lens)[i..]
    decreases 84 - i
  {
    if i == 84 {
      IdleTimesOut(line, p, lens);
    } else {
      var next := RunStart(p, lens, i + 1);
      WaveformEdge(line, p, lens, i, s, start, next);
      LaterEdges(line, p, lens, i + 1, !s, next);
      WaveCountsFrom(lens, i);
    }
  }

  /** The counts of a waveform: edge 84 times out, so the array is not overrun. */
  lemma WaveformCounts(line: Line, p: nat, lens: seq<nat>)
    requires Waveform(line, p, lens)
    ensures Counts(line, 0, HIGH, p) == WaveCounts(lens)
  {
    assert RunAt(line, p, lens, 0);
    RunBegins(line, p, lens, 1);
    EdgeCompletes(line, 0, HIGH, p, lens[0]);
    LaterEdges(line, p, lens, 1, !HIGH, RunStart(p, lens, 1));
    assert WaveCounts(lens) == [lens[0]] + WaveCounts(lens)[1..];
  }

  /** Every waveform decodes to 40 bits, bit k set exactly when its high run has more than 18
      samples. */
  lemma WaveformDecodes(line: Line, p: nat, lens: seq<nat>)
    requires Waveform(line, p, lens)
    ensures Edges(line, p) == 84
    ensures |Bits(line, p)| == 40
    ensures forall k :: 0 <= k < 40 ==> Bits(line, p)[k] == (BitRun(lens, k) > 18)
  {
    var counts := WaveCounts(lens);
    WaveformCounts(line, p, lens);
    BitsCount(counts);
    forall k | 0 <= k < 40
      ensures BitsOf(counts)[k] == (BitRun(lens, k) > 18)
    {
      BitAt(counts, k);
    }
  }

  // ---------- round trip ----------

  type Frame = v: seq<int> | |v| == 5 && forall b :: 0 <= b < 5 ==> 0 <= v[b] < 256
    witness [0, 0, 0, 0, 0]

  /** Forty bits, most significant bit of each byte first. */
  function EncodeFrame(v: Frame): (bits: seq<bool>)
    ensures |bits| == 40
  {
    Unpack(v[0], 8) + Unpack(v[1], 8) + Unpack(v[2], 8) + Unpack(v[3], 8) + Unpack(v[4], 8)
  }

  lemma FrameSlices(v: Frame, b: nat)
    requires b < 5
    ensures EncodeFrame(v)[8 * b..8 * b + 8] == Unpack(v[b], 8)
  {
  }

  lemma ValuesOfFrame(v: Frame)
    ensures Values(EncodeFrame(v)) == v
  {
    assert Pow2(8) == 256;
    forall b: nat | b < 5
      ensures ByteOf(EncodeFrame(v), b) == v[b]
    {
      FrameSlices(v, b);
      PackUnpack(v[b], 8);
    }
  }

  /** Round trip: any waveform whose 40 high runs encode five bytes, at whatever lengths, is
      read back as 40 bits and those five bytes, and is accepted exactly when the last byte is
      the sum of the others modulo 256. */
  lemma RoundTrip(v: Frame, line: Line, p: nat, lens: seq<nat>)
    requires Waveform(line, p, lens)
    requires forall k :: 0 <= k < 40 ==> EncodeFrame(v)[k] == (BitRun(lens, k) > 18)
    ensures Edges(line, p) < 85
    ensures var bits := Bits(line, p);
      && |bits| == 40
      && Values(bits) == v
      && (Accepts(Values(bits), |bits|) <==> v[4] == (v[0] + v[1] + v[2] + v[3]) % 256)
  {
    WaveformDecodes(line, p, lens);
    ValuesOfFrame(v);
    assert Bits(line, p) == EncodeFrame(v);
  }

  // ---------- a line for every frame ----------

  // The run of the first n that sample q lies in, or n for what follows them.
  function RunOf(lens: seq<nat>, q: nat, n: nat): (k: nat)
    requires n <= |lens|
    ensures k <= n
  {
    if n == 0 || RunStart(0, lens, n) <= q then n else RunOf(lens, q, n - 1)
  }

  /** The line with these runs, HIGH first, and then idle at the next level. */
  function Signal(lens: seq<nat>): Line {
    (q: nat) => RunOf(lens, q, |lens|) % 2 == 0
  }

  lemma {:induction false} RunStartGrows(lens: seq<nat>, k: nat, n: nat)
    requires k <= n <= |lens|
    ensures RunStart(0, lens, k) <= RunStart(0, lens, n)
    decreases n
  {
    if k < n {
      RunStartGrows(lens, k, n - 1);
    }
  }

  lemma {:induction false} RunOfSample(lens: seq<nat>, q: nat, k: nat, n: nat)
    requires k <= n <= |lens| && RunStart(0, lens, k) <= q
    requires k < n ==> q < RunStart(0, lens, k + 1)
    ensures RunOf(lens, q, n) == k
    decreases n
  {
    if k < n {
      RunStartGrows(lens, k + 1, n);
      RunOfSample(lens, q, k, n - 1);
    }
  }

  /** Every list of run lengths the decoder can count is that of some line. */
  lemma SignalIsWaveform(lens: seq<nat>)
    requires Countable(lens)
    ensures Waveform(Signal(lens), 0, lens)
  {
    var n := |lens|;
    forall k, q: nat | 0 <= k <= n && RunStart(0, lens, k) <= q && (k < n ==> q < RunStart(0, lens, k + 1))
      ensures Signal(lens)(q) == (k % 2 == 0)
    {
      RunOfSample(lens, q, k, n);
    }
    forall k | 0 <= k < n
      ensures RunAt(Signal(lens), 0, lens, k)
    {
      assert RunStart(0, lens, k + 1) == RunStart(0, lens, k) + lens[k];
    }
  }

  // The runs the sensor sends for five bytes, with the lengths of its low and high pulses.
  function RunsFor(v: Frame, low: nat, zero: nat, one: nat): (lens: seq<nat>)
    ensures |lens| == 84
  {
    seq(84, k requires 0 <= k < 84 =>
      if !DataEdge(k) then low else if EncodeFrame(v)[(k - 4) / 2] then one else zero)
  }

  /** Encoder and decoder: for every five bytes and every pulse lengths on the two sides of the
      threshold, the line the sensor would drive is read back as those bytes, and accepted
      exactly when the last is the sum of the others modulo 256. */
  lemma DecodesEverySignal(v: Frame, low: nat, zero: nat, one: nat)
    requires 2 <= low < 255 && 2 <= zero <= 18 < one <= 256
    ensures var bits := Bits(Signal(RunsFor(v, low, zero, one)), 0);
      && |bits| == 40
      && Values(bits) == v
      && (Accepts(Values(bits), |bits|) <==> v[4] == (v[0] + v[1] + v[2] + v[3]) % 256)
  {
    var lens := RunsFor(v, low, zero, one);
    SignalIsWaveform(lens);
    RoundTrip(v, Signal(lens), 0, lens);
  }

  // ---------- corruption ----------

  // Forty bits are recovered from the five values.
  lemma ValuesAreBytes(bits: seq<bool>)
    requires |bits| == 40
    ensures forall b :: 0 <= b < 5 ==> 0 <= Values(bits)[b] < 256
    ensures forall b :: 0 <= b < 5 ==> Unpack(Values(bits)[b], 8) == bits[8 * b..8 * b + 8]
  {
    assert Pow2(8) == 256;
    forall b: nat | b < 5
      ensures ByteOf(bits, b) < 256 && Unpack(ByteOf(bits, b), 8) == bits[8 * b..8 * b + 8]
    {
      UnpackPack(bits[8 * b..8 * b + 8]);
    }
  }

  lemma BitsFromSlices(bits: seq<bool>, bits': seq<bool>)
    requires |bits| == 40 && |bits'| == 40
    requires forall b :: 0 <= b < 5 ==> bits[8 * b..8 * b + 8] == bits'[8 * b..8 * b + 8]
    ensures bits == bits'
  {
    forall k | 0 <= k < 40
      ensures bits[k] == bits'[k]
    {
      var b := k / 8;
      assert bits[8 * b..8 * b + 8] == bits'[8 * b..8 * b + 8];
      assert bits[k] == bits[8 * b..8 * b + 8][k - 8 * b];
      assert bits'[k] == bits'[8 * b..8 * b + 8][k - 8 * b];
    }
  }

  lemma SameByte(bits: seq<bool>, bits': seq<bool>, a: nat)
    requires a < 5 && |bits| == 40 && |bits'| == 40
    requires forall k :: 8 * a <= k < 8 * a + 8 ==> bits[k] == bits'[k]
    ensures bits[8 * a..8 * a + 8] == bits'[8 * a..8 * a + 8]
    ensures Values(bits)[a] == Values(bits')[a]
  {
    assert bits[8 * a..8 * a + 8] == bits'[8 * a..8 * a + 8];
  }

  // Equal checksums and equal other bytes leave one value for byte b.
  lemma ChecksumPinsByte(v: seq<int>, w: seq<int>, b: nat)
    requires |v| == 5 && |w| == 5 && b < 5
    requires forall a :: 0 <= a < 5 ==> 0 <= v[a] < 256 && 0 <= w[a] < 256
    requires forall a :: 0 <= a < 5 && a != b ==> v[a] == w[a]
    requires Accepts(v, 40) && Accepts(w, 40)
    ensures v[b] == w[b]
  {
    var s, t := v[0] + v[1] + v[2] + v[3], w[0] + w[1] + w[2] + w[3];
    assert b < 4 ==> s - t == v[b] - w[b];
    assert b == 4 ==> s == t;
  }

  lemma AcceptedReadingsAgree(bits: seq<bool>, bits': seq<bool>, b: nat)
    requires b < 5 && |bits| == 40 && |bits'| == 40
    requires Accepts(Values(bits), 40) && Accepts(Values(bits'), 40)
    requires forall k :: 0 <= k < 40 && k / 8 != b ==> bits[k] == bits'[k]
    ensures bits == bits'
  {
    ValuesAreBytes(bits);
    ValuesAreBytes(bits');
    forall a: nat | a < 5 && a != b
      ensures bits[8 * a..8 * a + 8] == bits'[8 * a..8 * a + 8] && Values(bits)[a] == Values(bits')[a]
    {
      SameByte(bits, bits', a);
    }
    ChecksumPinsByte(Values(bits), Values(bits'), b);
    assert Unpack(Values(bits)[b], 8) == Unpack(Values(bits')[b], 8);
    BitsFromSlices(bits, bits');
  }

  /** The checksum catches every corruption confined to one byte: two accepted readings, of
      any lines whatever, whose bits agree outside byte b are the same reading. */
  lemma OneByteCorruptionIsRejected(line: Line, p: nat, line': Line, p': nat, b: nat)
    requires b < 5
    requires Edges(line, p) < 85 && Edges(line', p') < 85
    requires var bits, bits' := Bits(line, p), Bits(line', p');
      && Accepts(Values(bits), |bits|) && Accepts(Values(bits'), |bits'|)
      && forall k :: 0 <= k < |bits| && k < |bits'| && k / 8 != b ==> bits[k] == bits'[k]
    ensures Bits(line, p) == Bits(line', p')
  {
    OverrunExactlyWithoutTimeout(line, p);
    OverrunExactlyWithoutTimeout(line', p');
    AcceptedReadingsAgree(Bits(line, p), Bits(line', p'), b);
  }
}
