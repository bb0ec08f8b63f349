/** Cutting the dump into character chunks for the model calls, and the
    bookkeeping that lets a later run resume: the names of the per-chunk answer
    files, which chunks a directory already holds, and therefore which chunks a
    run sends. The dump is the decoded text; a chunk is a slice of it. */
module Chunks {
  import opened Wrappers
  import opened Text

  // ---------------------------------------------------------------------------
  // The ranges of src/main.py
  // ---------------------------------------------------------------------------

  /** `math.ceil(total_chars / CHUNK_CHARS)`, as an integer ceiling. */
  function PartCount(n: nat, size: nat): (r: nat)
    requires size > 0
    ensures r * size >= n
    ensures r > 0 ==> (r - 1) * size < n
    ensures n == 0 <==> r == 0
  {
    var r := (n + size - 1) / size;
    assert r * size + (n + size - 1) % size == n + size - 1;
    r
  }

  lemma MulMono(a: nat, b: nat, size: nat)
    requires a <= b
    ensures a * size <= b * size
  {
  }

  lemma MulSucc(k: nat, size: nat)
    ensures (k + 1) * size == k * size + size
  {
  }

  /** Where chunk `i` starts and ends. */
  lemma ChunkBounds(n: nat, size: nat, i: nat)
    requires size > 0 && i < PartCount(n, size)
    ensures i * size < n
    ensures i + 1 < PartCount(n, size) ==> (i + 1) * size < n
  {
    var parts := PartCount(n, size);
    MulMono(i, parts - 1, size);
    if i + 1 < parts {
      MulMono(i + 1, parts - 1, size);
    }
  }

  /** The characters `[i*C, min((i+1)*C, n))` of chunk `i`, counting from 0. */
  function ChunkAt(text: string, size: nat, i: nat): (r: string)
    requires size > 0 && i < PartCount(|text|, size)
    ensures 0 < |r| <= size
    ensures i + 1 < PartCount(|text|, size) ==> |r| == size
  {
    ChunkBounds(|text|, size, i);
    MulSucc(i, size);
    text[i * size..Min((i + 1) * size, |text|)]
  }

  /** All the chunks of the text, in order. */
  function ChunkSeq(text: string, size: nat): (r: seq<string>)
    requires size > 0
    ensures |r| == PartCount(|text|, size)
    ensures forall i :: 0 <= i < |r| ==> r[i] == ChunkAt(text, size, i)
  {
    seq(PartCount(|text|, size), i requires 0 <= i < PartCount(|text|, size) => ChunkAt(text, size, i))
  }

  /** The loop of src/main.py: one slice per range. The chunks are non-empty,
      none is longer than the chunk size, only the last may be shorter, and
      together they are the text. */
  method Partition(text: string, size: nat) returns (chunks: seq<string>)
    requires size > 0
    ensures |chunks| == PartCount(|text|, size)
    ensures forall k :: 0 <= k < |chunks| ==> 0 < |chunks[k]| <= size
    ensures forall k :: 0 <= k < |chunks| - 1 ==> |chunks[k]| == size
    ensures Concat(chunks) == text
  {
    var parts := PartCount(|text|, size);
    chunks := [];
    var i := 0;
    while i < parts
      invariant 0 <= i <= parts && |chunks| == i
      invariant forall k :: 0 <= k < i ==> chunks[k] == ChunkAt(text, size, k)
      invariant Concat(chunks) == text[..Min(i * size, |text|)]
    {
      var startIdx := i * size;
      var endIdx := Min((i + 1) * size, |text|);
      MulMono(i, parts - 1, size);
      assert Min(i * size, |text|) == startIdx;
      var chunk := text[startIdx..endIdx];
      assert (chunks + [chunk])[..i] == chunks;
      assert text[..endIdx] == text[..startIdx] + chunk;
      chunks := chunks + [chunk];
      i := i + 1;
    }
  }

  // ---------------------------------------------------------------------------
  // The streamed reads of the scripts under src/app
  // ---------------------------------------------------------------------------

  /** `f_in.read(size)` at character offset `pos` of a text file: up to `size`
      characters, the rest of the file for a negative size. */
  function Read(text: string, pos: nat, size: int): (r: string)
    requires pos <= |text|
    ensures pos + |r| <= |text| && r == text[pos..pos + |r|]
    ensures size >= 0 ==> |r| == Min(size, |text| - pos)
    ensures size < 0 ==> pos + |r| == |text|
  {
    if size < 0 then text[pos..] else text[pos..Min(pos + size, |text|)]
  }

  /** The buffers `read(size)` hands out until it returns the empty string. */
  function Reads(text: string, size: int): (r: seq<string>)
    ensures forall k :: 0 <= k < |r| ==> |r[k]| > 0
    decreases |text|
  {
    if |text| == 0 || size == 0 then []
    else
      var b := Read(text, 0, size);
      [b] + Reads(text[|b|..], size)
  }

  lemma ReadsDegenerate(text: string, size: int)
    requires size <= 0
    ensures Reads(text, size) == (if size == 0 || |text| == 0 then [] else [text])
  {
    if size < 0 && |text| > 0 {
      assert text[|text|..] == [];
    }
  }

  /** Reading from the text once a first buffer of `size` characters has gone:
      chunk `k` of the rest is chunk `k + 1` of the text. */
  lemma ChunkOfRest(text: string, size: nat, k: nat)
    requires size > 0 && |text| > size
    requires k < PartCount(|text| - size, size)
    ensures k + 1 < PartCount(|text|, size)
    ensures ChunkAt(text[size..], size, k) == ChunkAt(text, size, k + 1)
  {
    PartCountRest(|text|, size);
    var rest := text[size..];
    var lo := k * size;
    MulSucc(k, size);
    MulSucc(k + 1, size);
    var hi := Min(lo + size, |rest|);
    ChunkBounds(|rest|, size, k);
    assert ChunkAt(rest, size, k) == rest[lo..hi];
    assert ChunkAt(text, size, k + 1) == text[lo + size..hi + size];
    SliceOfRest(text, size, lo, hi);
  }

  lemma SliceOfRest(text: string, size: nat, lo: nat, hi: nat)
    requires size <= |text| && lo <= hi <= |text| - size
    ensures text[size..][lo..hi] == text[lo + size..hi + size]
  {
  }

  lemma PartCountAbove(n: nat, size: nat, i: nat)
    requires size > 0 && i * size < n
    ensures i < PartCount(n, size)
  {
    var parts := PartCount(n, size);
    if parts <= i {
      MulMono(parts, i, size);
    }
  }

  lemma {:induction false} ReadsAt(text: string, size: nat, k: nat)
    requires size > 0 && k < |Reads(text, size)|
    ensures k < PartCount(|text|, size)
    ensures Reads(text, size)[k] == ChunkAt(text, size, k)
    decreases k
  {
    var b := Read(text, 0, size);
    var rest := text[|b|..];
    assert Reads(text, size) == [b] + Reads(rest, size);
    if k == 0 {
      PartCountAbove(|text|, size, 0);
    } else {
      ReadsAt(rest, size, k - 1);
      assert |b| == size;
      ChunkOfRest(text, size, k - 1);
    }
  }

  /** The chunk count is the only count whose chunks cover the text with none
      left empty. */
  lemma PartCountUnique(n: nat, size: nat, r: nat)
    requires size > 0 && n > 0
    requires r * size >= n && r > 0 && (r - 1) * size < n
    ensures r == PartCount(n, size)
  {
    var p := PartCount(n, size);
    if r < p {
      MulMono(r, p - 1, size);
    } else if r > p {
      MulMono(p, r - 1, size);
    }
  }

  lemma PartCountRest(n: nat, size: nat)
    requires size > 0 && n > size
    ensures PartCount(n, size) == PartCount(n - size, size) + 1
  {
    var q := PartCount(n - size, size);
    MulSucc(q, size);
    MulSucc(q - 1, size);
    PartCountUnique(n, size, q + 1);
  }

  lemma {:induction false} ReadsCount(text: string, size: nat)
    requires size > 0
    ensures |Reads(text, size)| == PartCount(|text|, size)
    decreases |text|
  {
    if |text| > 0 {
      var b := Read(text, 0, size);
      assert Reads(text, size) == [b] + Reads(text[|b|..], size);
      ReadsCount(text[|b|..], size);
      if |text| > size {
        PartCountRest(|text|, size);
      } else {
        assert text[|b|..] == [];
        PartCountUnique(|text|, size, 1);
      }
    }
  }

  /** The scripts under src/app read the same chunks that src/main.py slices. */
  lemma ReadsArePartition(text: string, size: nat)
    requires size > 0
    ensures Reads(text, size) == ChunkSeq(text, size)
  {
    ReadsCount(text, size);
    forall k | 0 <= k < |Reads(text, size)|
      ensures Reads(text, size)[k] == ChunkSeq(text, size)[k]
    {
      ReadsAt(text, size, k);
    }
  }

  // ---------------------------------------------------------------------------
  // The answer file of a chunk
  // ---------------------------------------------------------------------------

  function Zeros(k: nat): (r: string)
    ensures |r| == k && All(r, IsDigit)
    ensures forall j :: 0 <= j < k ==> r[j] == '0'
  {
    seq(k, j => '0')
  }

  lemma {:induction false} ZerosValue(k: nat)
    ensures DecimalValue(Zeros(k)) == 0
    decreases k
  {
    if k > 0 {
      assert Zeros(k)[..k - 1] == Zeros(k - 1);
      ZerosValue(k - 1);
    }
  }

  /** Leading zeros do not change `int(ds)`. */
  lemma {:induction false} LeadingZeros(k: nat, ds: string)
    requires All(ds, IsDigit)
    ensures DecimalValue(Zeros(k) + ds) == DecimalValue(ds)
    decreases |ds|
  {
    var s := Zeros(k) + ds;
    if |ds| == 0 {
      assert s == Zeros(k);
      ZerosValue(k);
    } else {
      assert s[..|s| - 1] == Zeros(k) + ds[..|ds| - 1];
      LeadingZeros(k, ds[..|ds| - 1]);
    }
  }

  /** Two digit strings of the same length with the same value are equal. */
  lemma {:induction false} DecimalInjective(a: string, b: string)
    requires All(a, IsDigit) && All(b, IsDigit) && |a| == |b|
    requires DecimalValue(a) == DecimalValue(b)
    ensures a == b
    decreases |a|
  {
    if |a| > 0 {
      var n := |a| - 1;
      LastDigits(DecimalValue(a[..n]), DigitValue(a[n]), DecimalValue(b[..n]), DigitValue(b[n]));
      DecimalInjective(a[..n], b[..n]);
      assert a == a[..n] + [a[n]] && b == b[..n] + [b[n]];
    }
  }

  lemma LastDigits(va: nat, da: nat, vb: nat, db: nat)
    requires da < 10 && db < 10 && va * 10 + da == vb * 10 + db
    ensures va == vb && da == db
  {
  }

  lemma ThreeDigitsBelow(ds: string)
    requires |ds| == 3 && All(ds, IsDigit)
    ensures DecimalValue(ds) < 1000
  {
    DecimalStep(ds[..1]);
    assert ds[..2][..1] == ds[..1];
    DecimalStep(ds[..2]);
    assert ds[..3] == ds;
    DecimalStep(ds);
  }

  /** `int(ds)` is bounded by the value of its prefix. */
  lemma DecimalStep(ds: string)
    requires |ds| > 0 && All(ds, IsDigit)
    ensures DecimalValue(ds) <= DecimalValue(ds[..|ds| - 1]) * 10 + 9
  {
  }

  /** Three decimal digits are enough exactly below 1000. */
  lemma {:induction false} DecimalLength(n: nat)
    ensures |DecimalString(n)| <= 3 <==> n < 1000
    decreases n
  {
    if n >= 10 {
      DecimalLength(n / 10);
      assert |DecimalString(n)| == |DecimalString(n / 10)| + 1;
    }
  }

  /** `f"{idx:03d}"` for a non-negative index: its decimal digits, with zeros
      in front up to three characters. */
  function Format03(idx: nat): (r: string)
    ensures All(r, IsDigit) && DecimalValue(r) == idx
    ensures |r| == 3 <==> idx < 1000
    ensures |r| >= 3
    ensures idx >= 1000 ==> r == DecimalString(idx)
  {
    var d := DecimalString(idx);
    DecimalLength(idx);
    if |d| < 3 then LeadingZeros(3 - |d|, d); Zeros(3 - |d|) + d else d
  }

  const ChunkPrefix := "api_chunk_"
  const ChunkSuffix := ".txt"

  /** `f"api_chunk_{idx:03d}.txt"`, the answer file of chunk `idx`. */
  function ChunkFileName(idx: nat): string {
    ChunkPrefix + Format03(idx) + ChunkSuffix
  }

  /** `re.match(r"api_chunk_(\d{3})\.txt$", name)` and `int(m.group(1))`: the
      prefix, exactly three digits, ".txt", then the end of the name or a
      final line break (which `$` also accepts). */
  function ParseChunkName(name: string): (r: Option<nat>)
    ensures r.Some? ==> r.value < 1000
  {
    if && |name| >= 17
       && name[..10] == ChunkPrefix
       && All(name[10..13], IsDigit)
       && name[13..17] == ChunkSuffix
       && (|name| == 17 || (|name| == 18 && name[17] == '\n'))
    then
      ThreeDigitsBelow(name[10..13]);
      Some(DecimalValue(name[10..13]))
    else None
  }

  lemma NameParts(idx: nat)
    ensures |ChunkFileName(idx)| == 14 + |Format03(idx)|
    ensures ChunkFileName(idx)[..10] == ChunkPrefix
    ensures ChunkFileName(idx)[10..10 + |Format03(idx)|] == Format03(idx)
    ensures ChunkFileName(idx)[10 + |Format03(idx)|..] == ChunkSuffix
  {
  }

  /** The name written for chunk `idx` is read back as `idx` exactly when the
      index has at most three digits; from chunk 1000 on, the file is written
      but never recognised. */
  lemma NameRoundTrip(idx: nat)
    ensures ParseChunkName(ChunkFileName(idx)) == if idx < 1000 then Some(idx) else None
  {
    var name, f := ChunkFileName(idx), Format03(idx);
    NameParts(idx);
    if idx >= 1000 {
      assert name[13] == f[3] && IsDigit(f[3]);
      assert name[13..17][0] == name[13];
    }
  }

  /** A recognised name is the name written for its index, possibly followed by
      a line break. */
  lemma NameInverse(name: string)
    requires ParseChunkName(name).Some?
    ensures var i := ParseChunkName(name).value;
      name == ChunkFileName(i) || name == ChunkFileName(i) + "\n"
  {
    var i := ParseChunkName(name).value;
    NameParts(i);
    DecimalInjective(name[10..13], Format03(i));
    assert name[..17] == ChunkFileName(i);
    if |name| == 18 {
      assert name == name[..17] + "\n";
    } else {
      assert name == name[..17];
    }
  }

  /** `detect_completed_chunks`: the indices of the answer files a directory
      listing holds. */
  function DetectCompleted(names: seq<string>): (r: set<nat>)
    ensures forall i :: i in r ==> i < 1000
  {
    set k | 0 <= k < |names| && ParseChunkName(names[k]).Some? :: ParseChunkName(names[k]).value
  }

  /** An index counts as done exactly when it is below 1000 and the listing
      holds the file written for it (or that name with a final line break). */
  lemma DetectedIffWritten(names: seq<string>, i: nat)
    ensures i in DetectCompleted(names) <==>
      i < 1000 && (ChunkFileName(i) in names || ChunkFileName(i) + "\n" in names)
  {
    if i in DetectCompleted(names) {
      var k :| 0 <= k < |names| && ParseChunkName(names[k]) == Some(i);
      NameInverse(names[k]);
    }
    if i < 1000 && ChunkFileName(i) in names {
      var k :| 0 <= k < |names| && names[k] == ChunkFileName(i);
      NameRoundTrip(i);
    }
    if i < 1000 && ChunkFileName(i) + "\n" in names {
      var k :| 0 <= k < |names| && names[k] == ChunkFileName(i) + "\n";
      NameRoundTrip(i);
      NameWithBreak(i);
    }
  }

  lemma NameWithBreak(idx: nat)
    requires idx < 1000
    ensures ParseChunkName(ChunkFileName(idx) + "\n") == Some(idx)
  {
    NameParts(idx);
    var name, f := ChunkFileName(idx) + "\n", Format03(idx);
    assert |name| == 18 && name[17] == '\n';
    assert name[..10] == ChunkPrefix;
    assert name[10..13] == f;
    assert name[13..17] == ChunkSuffix;
  }

  // ---------------------------------------------------------------------------
  // Which chunks a run sends
  // ---------------------------------------------------------------------------

  /** A chunk sent to the model: its 1-based index and its text. The index log
      gets one line per job, in this order. */
  datatype Job = Job(idx: nat, text: string)

  /** Which indices a run passes over: the completed indices when resuming
      (src/app/2.py, src/app/3.py), the indices whose answer file already
      exists (src/app/4.py), or none. */
  datatype SkipRule = NoSkip | SkipDone(done: set<nat>) | SkipExisting(existing: set<string>)

  predicate Skips(rule: SkipRule, idx: nat) {
    match rule
    case NoSkip => false
    case SkipDone(done) => idx in done
    case SkipExisting(existing) => ChunkFileName(idx) in existing
  }

  /** The test the loop applies to each index under a rule. */
  function SkipTest(rule: SkipRule): nat -> bool {
    (i: nat) => Skips(rule, i)
  }

  /** The jobs for buffers numbered from `first` on, leaving out the indices
      the test `skip` holds for. */
  function Pending(bufs: seq<string>, first: nat, skip: nat -> bool): seq<Job>
    decreases |bufs|
  {
    if |bufs| == 0 then []
    else (if skip(first) then [] else [Job(first, bufs[0])]) + Pending(bufs[1..], first + 1, skip)
  }

  lemma PendingStep(b: string, rest: seq<string>, first: nat, skip: nat -> bool)
    ensures Pending([b] + rest, first, skip)
      == (if skip(first) then [] else [Job(first, b)]) + Pending(rest, first + 1, skip)
  {
    assert ([b] + rest)[1..] == rest;
  }

  /** A buffer becomes a job exactly when its index is not skipped, and the job
      carries that buffer. */
  lemma {:induction false} PendingMembership(bufs: seq<string>, first: nat, skip: nat -> bool, j: Job)
    ensures j in Pending(bufs, first, skip) <==>
      first <= j.idx < first + |bufs| && !skip(j.idx) && j.text == bufs[j.idx - first]
    decreases |bufs|
  {
    if |bufs| > 0 {
      var head: seq<Job> := if skip(first) then [] else [Job(first, bufs[0])];
      var rest := Pending(bufs[1..], first + 1, skip);
      assert Pending(bufs, first, skip) == head + rest;
      assert j in head + rest <==> j in head || j in rest;
      PendingMembership(bufs[1..], first + 1, skip, j);
      if first + 1 <= j.idx < first + |bufs| {
        assert bufs[1..][j.idx - (first + 1)] == bufs[j.idx - first];
      }
    }
  }

  /** Indices at least `first`, strictly increasing. */
  predicate IncreasingFrom(r: seq<Job>, first: nat) {
    && (forall a :: 0 <= a < |r| ==> first <= r[a].idx)
    && (forall a, b :: 0 <= a < b < |r| ==> r[a].idx < r[b].idx)
  }

  /** Jobs go out in strictly increasing index order, from `first` on. */
  lemma {:induction false} PendingIncreasing(bufs: seq<string>, first: nat, skip: nat -> bool)
    ensures IncreasingFrom(Pending(bufs, first, skip), first)
    decreases |bufs|
  {
    if |bufs| > 0 {
      var head: seq<Job> := if skip(first) then [] else [Job(first, bufs[0])];
      var rest := Pending(bufs[1..], first + 1, skip);
      assert Pending(bufs, first, skip) == head + rest;
      PendingIncreasing(bufs[1..], first + 1, skip);
      IncreasingCons(head, rest, first);
    }
  }

  lemma IncreasingCons(head: seq<Job>, rest: seq<Job>, first: nat)
    requires |head| <= 1 && (|head| == 1 ==> head[0].idx == first)
    requires IncreasingFrom(rest, first + 1)
    ensures IncreasingFrom(head + rest, first)
  {
    var r := head + rest;
    var h := |head|;
    forall a, b | 0 <= a < b < |r|
      ensures r[a].idx < r[b].idx
    {
      assert r[b] == rest[b - h];
      if a >= h {
        assert r[a] == rest[a - h];
      }
    }
    forall a | 0 <= a < |r|
      ensures first <= r[a].idx
    {
      if a >= h {
        assert r[a] == rest[a - h];
      }
    }
  }

  /** One `read(size)` at offset `pos`, then the rest of the buffers. */
  lemma ReadsFrom(text: string, pos: nat, size: int)
    requires pos <= |text|
    ensures var b := Read(text, pos, size);
      pos + |b| <= |text| &&
      Reads(text[pos..], size) == if |b| == 0 then [] else [b] + Reads(text[pos + |b|..], size)
  {
    var b := Read(text, pos, size);
    var rest := text[pos..];
    assert Read(rest, 0, size) == b;
    assert rest[|b|..] == text[pos + |b|..];
  }

  /** One turn of the read loop: the buffer at `pos` is job `idx` unless
      skipped, and the reads continue after it with the next index. */
  lemma LoopStep(text: string, pos: nat, size: int, idx: nat, skip: nat -> bool)
    requires pos <= |text| && |Read(text, pos, size)| > 0
    ensures var b := Read(text, pos, size);
      pos + |b| <= |text| &&
      Pending(Reads(text[pos..], size), idx, skip)
        == (if skip(idx) then [] else [Job(idx, b)]) + Pending(Reads(text[pos + |b|..], size), idx + 1, skip)
  {
    var b := Read(text, pos, size);
    ReadsFrom(text, pos, size);
    PendingStep(b, Reads(text[pos + |b|..], size), idx, skip);
  }

  /** The invariant of the read loop: the jobs sent so far followed by the
      jobs still to come from offset `pos` on make up the whole run `all`. */
  ghost predicate Sent(text: string, pos: nat, size: int, idx: nat, skip: nat -> bool, jobs: seq<Job>, all: seq<Job>) {
    pos <= |text| && jobs + Pending(Reads(text[pos..], size), idx, skip) == all
  }

  /** The invariant survives one turn. */
  lemma Advance(text: string, pos: nat, size: int, idx: nat, skip: nat -> bool, jobs: seq<Job>, all: seq<Job>)
    requires Sent(text, pos, size, idx, skip, jobs, all) && |Read(text, pos, size)| > 0
    ensures var b := Read(text, pos, size);
      Sent(text, pos + |b|, size, idx + 1, skip, if skip(idx) then jobs else jobs + [Job(idx, b)], all)
  {
    LoopStep(text, pos, size, idx, skip);
  }

  /** When a read returns nothing, every job has been sent. */
  lemma LoopEnd(text: string, pos: nat, size: int, idx: nat, skip: nat -> bool, jobs: seq<Job>, all: seq<Job>)
    requires Sent(text, pos, size, idx, skip, jobs, all) && |Read(text, pos, size)| == 0
    ensures jobs == all
  {
    ReadsFrom(text, pos, size);
    assert jobs + [] == jobs;
  }

  /** The read loop the scripts under src/app share: read a buffer, give it the
      next index, skip it if the test says so and send it otherwise, until a
      read returns nothing. */
  method SendLoop(text: string, pos0: nat, size: int, first: nat, skip: nat -> bool) returns (jobs: seq<Job>)
    requires pos0 <= |text|
    ensures jobs == Pending(Reads(text[pos0..], size), first, skip)
  {
    ghost var all := Pending(Reads(text[pos0..], size), first, skip);
    var pos := pos0;
    var idx := first;
    var buffer := Read(text, pos, size);
    jobs := [];
    assert [] + all == all;
    while |buffer| > 0
      invariant Sent(text, pos, size, idx, skip, jobs, all)
      invariant pos <= |text| && buffer == Read(text, pos, size)
      decreases |text| - pos
    {
      Advance(text, pos, size, idx, skip, jobs, all);
      if !skip(idx) {
        jobs := jobs + [Job(idx, buffer)];
      }
      idx := idx + 1;
      pos := pos + |buffer|;
      buffer := Read(text, pos, size);
    }
    LoopEnd(text, pos, size, idx, skip, jobs, all);
  }

  /** The run of src/app/2.py and src/app/3.py: buffers are numbered from 1,
      and buffer `idx` is skipped when resuming and `idx` is among the
      completed ones. */
  method ResumeRun(text: string, size: int, resume: bool, done: set<nat>) returns (jobs: seq<Job>)
    ensures jobs == Pending(Reads(text, size), 1, SkipTest(if resume then SkipDone(done) else NoSkip))
  {
    assert text[0..] == text;
    jobs := SendLoop(text, 0, size, 1, SkipTest(if resume then SkipDone(done) else NoSkip));
  }

  // ---------------------------------------------------------------------------
  // Resuming from a start index (src/app/4.py)
  // ---------------------------------------------------------------------------

  /** The buffers left after `k` have been read. */
  function Drop(xs: seq<string>, k: nat): (r: seq<string>)
    ensures |r| == if k <= |xs| then |xs| - k else 0
    ensures forall j :: 0 <= j < |r| ==> r[j] == xs[k + j]
  {
    if k <= |xs| then xs[k..] else []
  }

  lemma SkipStep(text: string, pos: nat, size: int, i: nat)
    requires pos <= |text|
    requires Reads(text[pos..], size) == Drop(Reads(text, size), i)
    ensures var b := Read(text, pos, size);
      pos + |b| <= |text| && Reads(text[pos + |b|..], size) == Drop(Reads(text, size), i + 1)
  {
    var b := Read(text, pos, size);
    ReadsFrom(text, pos, size);
    if |b| > 0 {
      assert Drop(Reads(text, size), i + 1) == Drop(Reads(text, size), i)[1..];
    }
  }

  /** `skip_chars_for_chunks`: `count` reads thrown away. What is left to read
      is the buffers after the first `count`. */
  method SkipChunks(text: string, count: int, size: int) returns (pos: nat)
    ensures pos <= |text|
    ensures Reads(text[pos..], size) == Drop(Reads(text, size), if count < 0 then 0 else count)
  {
    pos := 0;
    var i := 0;
    assert text[0..] == text;
    while i < count
      invariant pos <= |text| && 0 <= i <= Max(count, 0)
      invariant Reads(text[pos..], size) == Drop(Reads(text, size), i)
    {
      SkipStep(text, pos, size, i);
      var b := Read(text, pos, size);
      pos := pos + |b|;
      i := i + 1;
    }
  }

  /** The API loop of src/app/4.py: skip the buffers before `start`, then number
      the rest from `start` and pass over every index whose answer file the
      output directory already holds. */
  method ResumeFrom(text: string, size: int, start: int, resumeLocal: bool, existing: set<string>)
    returns (jobs: seq<Job>)
    ensures var first := if start > 1 then start else 1;
      jobs == Pending(Drop(Reads(text, size), first - 1), first, SkipTest(if resumeLocal then SkipExisting(existing) else NoSkip))
  {
    var skip := SkipTest(if resumeLocal then SkipExisting(existing) else NoSkip);
    var idx := 1;
    var pos := 0;
    if start > 1 {
      pos := SkipChunks(text, start - 1, size);
      idx := start;
    } else {
      assert text[0..] == text;
      assert Drop(Reads(text, size), 0) == Reads(text, size);
    }
    jobs := SendLoop(text, pos, size, idx, skip);
  }

  /** What a run starting at `first` sends, stated on the text: job `i` is sent
      exactly when `first <= i <= ceil(n / C)` and `skip` does not hold for `i`,
      and it carries the characters `[(i-1)*C, min(i*C, n))`. With `first = 1`
      this is the run of src/app/2.py and src/app/3.py. */
  lemma Schedule(text: string, size: nat, first: nat, skip: nat -> bool, j: Job)
    requires size > 0 && first >= 1
    ensures j in Pending(Drop(Reads(text, size), first - 1), first, skip) <==>
      && first <= j.idx <= PartCount(|text|, size)
      && !skip(j.idx)
      && j.text == ChunkAt(text, size, j.idx - 1)
  {
    var all := Reads(text, size);
    var bufs := Drop(all, first - 1);
    ReadsArePartition(text, size);
    PendingMembership(bufs, first, skip, j);
    if first <= j.idx < first + |bufs| {
      assert bufs[j.idx - first] == all[j.idx - 1];
    }
  }

  /** A resumed run of src/app/2.py or src/app/3.py sends every chunk from
      index 1000 on, whatever the listing holds, because the listing scan
      never reports such a chunk done. */
  lemma HighChunkResent(text: string, size: nat, names: seq<string>, idx: nat)
    requires size > 0 && 1000 <= idx <= PartCount(|text|, size)
    ensures Job(idx, ChunkAt(text, size, idx - 1)) in
      Pending(Reads(text, size), 1, SkipTest(SkipDone(DetectCompleted(names))))
  {
    var skip := SkipTest(SkipDone(DetectCompleted(names)));
    assert Drop(Reads(text, size), 0) == Reads(text, size);
    assert !skip(idx);
    Schedule(text, size, 1, skip, Job(idx, ChunkAt(text, size, idx - 1)));
  }

  /** A run of src/app/4.py that checks existing answer files never sends a
      chunk whose file `api_chunk_<idx>.txt` is already there. */
  lemma ExistingNeverSent(bufs: seq<string>, first: nat, existing: set<string>, j: Job)
    requires j in Pending(bufs, first, SkipTest(SkipExisting(existing)))
    ensures ChunkFileName(j.idx) !in existing
  {
    PendingMembership(bufs, first, SkipTest(SkipExisting(existing)), j);
  }

  /** From index 1000 on the two resume rules part ways: src/app/2.py and
      src/app/3.py send the chunk again, while src/app/4.py passes over it once
      its answer file exists. */
  lemma HighChunkFoundOnlyByExistence(text: string, size: nat, names: seq<string>,
                                      first: nat, existing: set<string>, idx: nat)
    requires size > 0 && first >= 1 && 1000 <= idx <= PartCount(|text|, size)
    ensures Job(idx, ChunkAt(text, size, idx - 1)) in
      Pending(Reads(text, size), 1, SkipTest(SkipDone(DetectCompleted(names))))
    ensures ChunkFileName(idx) in existing ==>
      forall j :: j in Pending(Drop(Reads(text, size), first - 1), first, SkipTest(SkipExisting(existing)))
        ==> j.idx != idx
  {
    HighChunkResent(text, size, names, idx);
    forall j | j in Pending(Drop(Reads(text, size), first - 1), first, SkipTest(SkipExisting(existing)))
      ensures ChunkFileName(idx) in existing ==> j.idx != idx
    {
      ExistingNeverSent(Drop(Reads(text, size), first - 1), first, existing, j);
    }
  }

  // ---------------------------------------------------------------------------
  // Where a run of src/app/4.py starts
  // ---------------------------------------------------------------------------

  /** `(f.filename or "").lower().strip()`. */
  function RemoteName(filename: Option<string>): string {
    Strip(LowerString(if filename.Some? then filename.value else ""), IsSpace)
  }

  /** `re.match(prefix + r"(\d+)\.txt$", fname)` and `int(m.group(1))`. The
      digit run is the maximal one, because the character after it must be the
      '.' of ".txt"; `$` also accepts a final line break. */
  function IndexAfter(fname: string, prefix: string): (r: Option<nat>)
    ensures r.Some? ==> StartsWith(fname, prefix)
  {
    if StartsWith(fname, prefix) then
      var p := |prefix|;
      var e := Span(fname, p, IsDigit);
      SpanAll(fname, p, IsDigit);
      if e > p && (fname[e..] == ".txt" || fname[e..] == ".txt\n") then
        Some(DecimalValue(fname[p..e]))
      else None
    else None
  }

  /** The index one remote file name carries, if any. */
  function RemoteIndex(filename: Option<string>, prefix: string): Option<nat> {
    IndexAfter(RemoteName(filename), prefix)
  }

  lemma RemoteNameClean(prefix: string, ds: string, ext: string)
    requires |prefix| > 0 && !IsSpace(prefix[0]) && LowerString(prefix) == prefix
    requires All(ds, IsDigit)
    requires ext == ".txt" || ext == ".TXT"
    ensures RemoteName(Some(prefix + ds + ext)) == prefix + ds + ".txt"
  {
    var s := prefix + ds + ".txt";
    RemoteNameLowered(prefix, ds, ext);
    assert s[0] == prefix[0];
    assert s[|s| - 1] == ".txt"[3];
    StripNothing(s, IsSpace);
  }

  lemma StripNothing(s: string, p: char -> bool)
    requires |s| > 0 && !p(s[0]) && !p(s[|s| - 1])
    ensures Strip(s, p) == s
  {
    StripPadded("", s, "", p);
    assert "" + s + "" == s;
  }

  /** A name that splits into the prefix, a digit run and ".txt" (or ".txt"
      and a line break) yields the value of the run. */
  lemma IndexAfterParts(s: string, prefix: string, e: nat)
    requires |prefix| < e <= |s| && s[..|prefix|] == prefix
    requires All(s[|prefix|..e], IsDigit) && (s[e..] == ".txt" || s[e..] == ".txt\n")
    ensures IndexAfter(s, prefix) == Some(DecimalValue(s[|prefix|..e]))
  {
    var p := |prefix|;
    assert forall k :: p <= k < e ==> s[k] == s[p..e][k - p];
    assert s[e] == s[e..][0];
    SpanUnique(s, p, e, IsDigit);
  }

  lemma IndexAfterDigits(prefix: string, ds: string)
    requires |ds| > 0 && All(ds, IsDigit)
    ensures IndexAfter(prefix + ds + ".txt", prefix) == Some(DecimalValue(ds))
  {
    var s := prefix + ds + ".txt";
    var p, e := |prefix|, |prefix| + |ds|;
    assert s[..p] == prefix;
    assert s[p..e] == ds;
    assert s[e..] == ".txt";
    IndexAfterParts(s, prefix, e);
  }

  /** A name is recognised, with value `n`, exactly when it is the prefix, a
      non-empty digit run of value `n` and ".txt", possibly followed by a line
      break. */
  lemma IndexAfterIff(fname: string, prefix: string, n: nat)
    ensures IndexAfter(fname, prefix) == Some(n) <==>
      exists ds: string :: |ds| > 0 && All(ds, IsDigit) && DecimalValue(ds) == n
        && (fname == prefix + ds + ".txt" || fname == prefix + ds + ".txt\n")
  {
    var p := |prefix|;
    if IndexAfter(fname, prefix) == Some(n) {
      var e := Span(fname, p, IsDigit);
      SpanAll(fname, p, IsDigit);
      var ds := fname[p..e];
      forall k | 0 <= k < |ds|
        ensures IsDigit(ds[k])
      {
        assert ds[k] == fname[p + k];
      }
      assert fname == fname[..p] + ds + fname[e..];
    }
    if exists ds: string :: |ds| > 0 && All(ds, IsDigit) && DecimalValue(ds) == n
        && (fname == prefix + ds + ".txt" || fname == prefix + ds + ".txt\n") {
      var ds: string :| |ds| > 0 && All(ds, IsDigit) && DecimalValue(ds) == n
        && (fname == prefix + ds + ".txt" || fname == prefix + ds + ".txt\n");
      var e := p + |ds|;
      assert fname[..p] == prefix;
      assert fname[p..e] == ds;
      assert fname[e..] == ".txt" || fname[e..] == ".txt\n";
      IndexAfterParts(fname, prefix, e);
    }
  }

  /** The index a remote file carries is `n` exactly when its cleaned name is
      the prefix, digits of value `n` and ".txt", possibly with a line break;
      the highest remote index is taken over these values. */
  lemma RemoteIndexIff(filename: Option<string>, prefix: string, n: nat)
    ensures RemoteIndex(filename, prefix) == Some(n) <==>
      exists ds: string :: |ds| > 0 && All(ds, IsDigit) && DecimalValue(ds) == n
        && (RemoteName(filename) == prefix + ds + ".txt" || RemoteName(filename) == prefix + ds + ".txt\n")
  {
    IndexAfterIff(RemoteName(filename), prefix, n);
  }

  /** A remote name made of the prefix, some digits and ".txt" (in either case)
      gives back the value of the digits. */
  lemma RemoteNameRoundTrip(prefix: string, ds: string, ext: string)
    requires |prefix| > 0 && !IsSpace(prefix[0]) && LowerString(prefix) == prefix
    requires |ds| > 0 && All(ds, IsDigit)
    requires ext == ".txt" || ext == ".TXT"
    ensures RemoteIndex(Some(prefix + ds + ext), prefix) == Some(DecimalValue(ds))
  {
    RemoteNameClean(prefix, ds, ext);
    IndexAfterDigits(prefix, ds);
  }

  lemma RemoteNameLowered(prefix: string, ds: string, ext: string)
    requires LowerString(prefix) == prefix && All(ds, IsDigit)
    requires ext == ".txt" || ext == ".TXT"
    ensures LowerString(prefix + ds + ext) == prefix + ds + ".txt"
  {
    var s := prefix + ds + ext;
    forall k | 0 <= k < |s|
      ensures Lower(s[k]) == (prefix + ds + ".txt")[k]
    {
      if k < |prefix| {
        assert Lower(prefix[k]) == LowerString(prefix)[k];
      }
    }
  }

  /** The largest of the values present, or -1 when none is. */
  method Largest(xs: seq<Option<nat>>) returns (m: int)
    ensures m == -1 <==> forall k :: 0 <= k < |xs| ==> xs[k].None?
    ensures m >= 0 ==> exists k :: 0 <= k < |xs| && xs[k] == Some(m)
    ensures forall k :: 0 <= k < |xs| && xs[k].Some? ==> xs[k].value <= m
  {
    m := -1;
    for i := 0 to |xs|
      invariant m >= -1
      invariant m == -1 <==> forall k :: 0 <= k < i ==> xs[k].None?
      invariant m >= 0 ==> exists k :: 0 <= k < i && xs[k] == Some(m)
      invariant forall k :: 0 <= k < i && xs[k].Some? ==> xs[k].value <= m
    {
      match xs[i]
      case Some(idx) =>
        if idx > m {
          m := idx;
        }
      case None =>
    }
  }

  function RemoteIndices(filenames: seq<Option<string>>, prefix: string): (r: seq<Option<nat>>)
    ensures |r| == |filenames|
    ensures forall k :: 0 <= k < |r| ==> r[k] == RemoteIndex(filenames[k], prefix)
  {
    seq(|filenames|, k requires 0 <= k < |filenames| => RemoteIndex(filenames[k], prefix))
  }

  /** The filename part of `highest_remote_chunk_index`: -1 when no name
      carries an index, and otherwise the largest index found. */
  method HighestRemote(filenames: seq<Option<string>>, prefix: string) returns (maxIdx: int)
    ensures maxIdx == -1 <==> forall k :: 0 <= k < |filenames| ==> RemoteIndex(filenames[k], prefix).None?
    ensures maxIdx >= 0 ==> exists k :: 0 <= k < |filenames| && RemoteIndex(filenames[k], prefix) == Some(maxIdx)
    ensures forall k :: 0 <= k < |filenames| && RemoteIndex(filenames[k], prefix).Some? ==>
      RemoteIndex(filenames[k], prefix).value <= maxIdx
  {
    maxIdx := Largest(RemoteIndices(filenames, prefix));
  }

  function ParsedNames(names: seq<string>): (r: seq<Option<nat>>)
    ensures |r| == |names|
    ensures forall k :: 0 <= k < |r| ==> r[k] == ParseChunkName(names[k])
  {
    seq(|names|, k requires 0 <= k < |names| => ParseChunkName(names[k]))
  }

  /** `max(local_done) if local_done else 0`, with `local_done` the indices
      detected in the directory listing `names`. With `RESUME_LOCAL` off,
      src/app/4.py uses `set()` instead; a caller models that by passing an
      empty listing. */
  method MaxLocal(names: seq<string>) returns (m: nat)
    ensures DetectCompleted(names) == {} ==> m == 0
    ensures DetectCompleted(names) != {} ==> m in DetectCompleted(names)
    ensures forall i :: i in DetectCompleted(names) ==> i <= m
  {
    var parsed := ParsedNames(names);
    var largest := Largest(parsed);
    m := if largest < 0 then 0 else largest;
    forall i | i in DetectCompleted(names)
      ensures largest >= 0 && i <= m
    {
      var j :| 0 <= j < |names| && ParseChunkName(names[j]) == Some(i);
      assert parsed[j] == Some(i);
    }
    if largest >= 0 {
      var j :| 0 <= j < |parsed| && parsed[j] == Some(largest);
      assert ParseChunkName(names[j]) == Some(m);
      assert m in DetectCompleted(names);
    }
  }

  /** The start index as src/app/4.py computes it: the remote maximum `hr` is
      first turned into `hr + 1`, and then one is added again. The result is the
      least index above the last local chunk and above `hr + 1`. */
  function StartIndex(maxLocal: nat, useRemote: bool, hr: int): (r: int)
    ensures r >= 1 && r > maxLocal
    ensures useRemote && hr >= 0 ==> r > hr + 1
    ensures r == maxLocal + 1 || (useRemote && hr >= 0 && r == hr + 2)
  {
    var maxRemote := if useRemote then (if hr >= 0 then hr + 1 else 0) else 0;
    var start := Max(maxLocal + 1, maxRemote + 1);
    if start < 1 then 1 else start
  }

  /** The start index the comment beside it describes ("remote 26, start from
      27"): the least index above the last local chunk and above the last
      remote one. */
  function StartIndexIntended(maxLocal: nat, useRemote: bool, hr: int): (r: int)
    ensures r >= 1 && r > maxLocal
    ensures useRemote && hr >= 0 ==> r > hr
    ensures r == maxLocal + 1 || (useRemote && hr >= 0 && r == hr + 1)
  {
    Max(maxLocal, if useRemote && hr >= 0 then hr else 0) + 1
  }

  /** With the remote ahead of the local files, the computed start is one past
      the intended one: remote 26 gives 28, not 27. */
  lemma StartIndexSkipsOne(maxLocal: nat, hr: int)
    requires hr >= 0 && hr >= maxLocal
    ensures StartIndex(maxLocal, true, hr) == hr + 2
    ensures StartIndexIntended(maxLocal, true, hr) == hr + 1
  {
  }

  /** So the run never sends chunk `hr + 1`, though no file shows it was
      handled; from the intended start it is sent unless its answer file
      exists. */
  lemma ChunkAfterRemoteNeverSent(text: string, size: nat, maxLocal: nat, hr: int, skip: nat -> bool, j: Job)
    requires size > 0 && hr >= 0 && hr >= maxLocal
    requires j in Pending(Drop(Reads(text, size), StartIndex(maxLocal, true, hr) - 1), StartIndex(maxLocal, true, hr), skip)
    ensures j.idx != hr + 1
  {
    StartIndexSkipsOne(maxLocal, hr);
    Schedule(text, size, hr + 2, skip, j);
  }

  lemma ChunkAfterRemoteSentIntended(text: string, size: nat, maxLocal: nat, hr: int, skip: nat -> bool)
    requires size > 0 && hr >= 0 && hr >= maxLocal
    requires hr + 1 <= PartCount(|text|, size) && !skip(hr + 1)
    ensures var first := StartIndexIntended(maxLocal, true, hr);
      Job(hr + 1, ChunkAt(text, size, hr)) in Pending(Drop(Reads(text, size), first - 1), first, skip)
  {
    StartIndexSkipsOne(maxLocal, hr);
    Schedule(text, size, hr + 1, skip, Job(hr + 1, ChunkAt(text, size, hr)));
  }
}
