/**
 The `Batcher` of `batch_writer.rs`: serialized points are appended to a
 current buffer, which is sealed once it holds `MAX_LINES` lines or at least
 `MAX_BYTES` bytes.

 The batcher's default tag map is borrowed for its whole life, so it is
 iterated in the same order on every call; the state keeps that order as
 an entry sequence.
 */
module Batching {
  import opened Base
  import opened TagNames
  import opened PointValues
  import opened Options
  import opened Points
  import opened LineProtocol

  const MaxLines: nat := 10_000
  const MaxBytes: nat := 10 * 1024 * 1024

  datatype Batcher = Batcher(
    buffers: seq<seq<byte>>,
    current: seq<byte>,
    currentLines: nat,
    precision: TimestampPrecision,
    defaultTags: seq<(TagName, string)>)

  /** Everything the batcher holds, sealed or not, in order. */
  function Flatten(b: Batcher): seq<byte> {
    Concat(b.buffers) + b.current
  }

  /** The state between calls: below both bounds, and no empty sealed buffer. */
  predicate Inv(b: Batcher) {
    b.currentLines < MaxLines
    && |b.current| < MaxBytes
    && (b.currentLines == 0 <==> b.current == [])
    && forall j :: 0 <= j < |b.buffers| ==> b.buffers[j] != []
  }

  /** `Batcher::new`. */
  function New(precision: TimestampPrecision, defaultTags: seq<(TagName, string)>): (b: Batcher)
    ensures Inv(b) && Flatten(b) == [] && b.buffers == []
  {
    Batcher([], [], 0, precision, defaultTags)
  }

  /**
   The body of `add_point` once the point is serialized to `line`: append,
   count, and seal when either bound is reached.
   */
  function Push(b: Batcher, line: seq<byte>): (r: Batcher)
    requires line != []
    ensures Flatten(r) == Flatten(b) + line
    ensures Inv(b) ==> Inv(r)
    ensures r.precision == b.precision && r.defaultTags == b.defaultTags
    ensures r.buffers == b.buffers || r.buffers == b.buffers + [b.current + line]
    ensures r.buffers != b.buffers <==> (b.currentLines + 1 >= MaxLines || |b.current + line| >= MaxBytes)
  {
    var cur := b.current + line;
    var n := b.currentLines + 1;
    if n >= MaxLines || |cur| >= MaxBytes then
      ConcatAppend(b.buffers, [cur]);
      ConcatSingle(cur);
      b.(buffers := b.buffers + [cur], current := [], currentLines := 0)
    else
      b.(current := cur, currentLines := n)
  }

  /** A point with the order in which its two hash maps are iterated. */
  datatype Listed = Listed(point: Point, tagEs: seq<(TagName, string)>, fieldEs: seq<(string, PointValue)>)

  ghost predicate WellListed(x: Listed, precision: TimestampPrecision) {
    Enumerates(x.tagEs, x.point.tags)
    && Enumerates(x.fieldEs, x.point.fields)
    && Serializable(x.point, precision)
  }

  /** The bytes `add_point` appends for a point: the UTF-8 of its line. */
  ghost function LineOf(x: Listed, precision: TimestampPrecision, defaultEs: seq<(TagName, string)>, ft: FloatText): seq<byte>
    requires WellListed(x, precision)
  {
    EnumeratedRenderable(x.point, x.fieldEs);
    Utf8Encode(LineText(x.point, precision, defaultEs, x.tagEs, x.fieldEs, ft))
  }

  /** `lines` are the lines of the first `n` points of `xs`, one each, in order. */
  ghost predicate LinesUpTo(lines: seq<seq<byte>>, xs: seq<Listed>, n: nat, precision: TimestampPrecision, defaultEs: seq<(TagName, string)>, ft: FloatText)
    requires n <= |xs| && forall i :: 0 <= i < |xs| ==> WellListed(xs[i], precision)
  {
    |lines| == n && forall k :: 0 <= k < n ==> lines[k] == LineOf(xs[k], precision, defaultEs, ft)
  }

  /** `lines` are the lines of the points `xs`, one each, in order. */
  ghost predicate LinesOf(lines: seq<seq<byte>>, xs: seq<Listed>, precision: TimestampPrecision, defaultEs: seq<(TagName, string)>, ft: FloatText)
    requires forall i :: 0 <= i < |xs| ==> WellListed(xs[i], precision)
  {
    LinesUpTo(lines, xs, |xs|, precision, defaultEs, ft)
  }

  lemma LinesUpToSnoc(lines: seq<seq<byte>>, xs: seq<Listed>, i: nat, precision: TimestampPrecision, defaultEs: seq<(TagName, string)>, ft: FloatText, line: seq<byte>)
    requires forall k :: 0 <= k < |xs| ==> WellListed(xs[k], precision)
    requires i < |xs| && LinesUpTo(lines, xs, i, precision, defaultEs, ft)
    requires line == LineOf(xs[i], precision, defaultEs, ft)
    ensures LinesUpTo(lines + [line], xs, i + 1, precision, defaultEs, ft)
  {
    var ls := lines + [line];
    assert forall k :: 0 <= k < i ==> ls[k] == lines[k];
    assert ls[i] == line;
  }

  /** Every point's line is non-empty. */
  lemma LineOfNonEmpty(x: Listed, precision: TimestampPrecision, defaultEs: seq<(TagName, string)>, ft: FloatText)
    requires WellListed(x, precision)
    ensures LineOf(x, precision, defaultEs, ft) != []
  {
    EnumeratedRenderable(x.point, x.fieldEs);
    LineNonEmpty(x.point, precision, defaultEs, x.tagEs, x.fieldEs, ft);
  }

  /** `add_point`: serialize onto the current buffer, then `Push`'s bookkeeping. Never fails. */
  method AddPoint(b: Batcher, defaultTags: TagMap, x: Listed, ft: FloatText) returns (r: Result<Batcher, Error>, ghost line: seq<byte>)
    requires Enumerates(b.defaultTags, defaultTags)
    requires WellListed(x, b.precision)
    ensures AllRenderable(x.fieldEs)
    ensures line == Utf8Encode(LineText(x.point, b.precision, b.defaultTags, x.tagEs, x.fieldEs, ft))
    ensures line == LineOf(x, b.precision, b.defaultTags, ft)
    ensures r.Ok? && Flatten(r.value) == Flatten(b) + line
    ensures Inv(b) ==> Inv(r.value)
    ensures r.value == Push(b, line)
  {
    var cur := Serialize(b.current, x.point, b.precision, defaultTags, b.defaultTags, x.tagEs, x.fieldEs, ft);
    line := Utf8Encode(LineText(x.point, b.precision, b.defaultTags, x.tagEs, x.fieldEs, ft));
    LineNonEmpty(x.point, b.precision, b.defaultTags, x.tagEs, x.fieldEs, ft);
    var n := b.currentLines + 1;
    if n >= MaxLines || |cur| >= MaxBytes {
      r := Ok(b.(buffers := b.buffers + [cur], current := [], currentLines := 0));
    } else {
      r := Ok(b.(current := cur, currentLines := n));
    }
    PushOnto(b, line, cur);
  }

  /** `Push` in terms of the grown buffer `cur`. */
  lemma PushOnto(b: Batcher, line: seq<byte>, cur: seq<byte>)
    requires line != [] && cur == b.current + line
    ensures Push(b, line)
         == if b.currentLines + 1 >= MaxLines || |cur| >= MaxBytes
            then b.(buffers := b.buffers + [cur], current := [], currentLines := 0)
            else b.(current := cur, currentLines := b.currentLines + 1)
  {
  }

  /** The batcher after a sequence of serialized lines, one `Push` each. */
  function Run(b: Batcher, lines: seq<seq<byte>>): Batcher
    requires forall i :: 0 <= i < |lines| ==> lines[i] != []
    decreases |lines|
  {
    if lines == [] then b else Run(Push(b, lines[0]), lines[1..])
  }

  /** Pushing lines keeps the invariant and appends exactly their bytes. */
  lemma {:induction false} RunPreserves(b: Batcher, lines: seq<seq<byte>>)
    requires forall i :: 0 <= i < |lines| ==> lines[i] != []
    ensures Inv(b) ==> Inv(Run(b, lines))
    ensures Flatten(Run(b, lines)) == Flatten(b) + Concat(lines)
    decreases |lines|
  {
    if lines != [] {
      RunPreserves(Push(b, lines[0]), lines[1..]);
      ConcatAppend([lines[0]], lines[1..]);
      assert [lines[0]] + lines[1..] == lines;
      ConcatSingle(lines[0]);
    }
  }

  /** `add_points`: `add_point` for each point in turn; never fails. */
  method AddPoints(b: Batcher, defaultTags: TagMap, xs: seq<Listed>, ft: FloatText) returns (r: Result<Batcher, Error>, ghost lines: seq<seq<byte>>)
    requires Enumerates(b.defaultTags, defaultTags)
    requires forall i :: 0 <= i < |xs| ==> WellListed(xs[i], b.precision)
    ensures |lines| == |xs|
    ensures LinesOf(lines, xs, b.precision, b.defaultTags, ft)
    ensures forall i :: 0 <= i < |lines| ==> lines[i] != []
    ensures r.Ok? && Flatten(r.value) == Flatten(b) + Concat(lines)
    ensures Inv(b) ==> Inv(r.value)
    ensures r.value == Run(b, lines)
  {
    var cur := b;
    lines := [];
    var i := 0;
    while i < |xs|
      invariant i <= |xs| && |lines| == i
      invariant LinesUpTo(lines, xs, i, b.precision, b.defaultTags, ft)
      invariant forall k :: 0 <= k < i ==> lines[k] != []
      invariant cur.precision == b.precision && cur.defaultTags == b.defaultTags
      invariant Run(b, lines) == cur
    {
      var step;
      ghost var line;
      step, line := AddPoint(cur, defaultTags, xs[i], ft);
      RunSnoc(b, lines, line);
      LinesUpToSnoc(lines, xs, i, b.precision, b.defaultTags, ft, line);
      lines := lines + [line];
      cur := step.value;
      i := i + 1;
    }
    r := Ok(cur);
    RunPreserves(b, lines);
  }

  lemma {:induction false} RunSnoc(b: Batcher, lines: seq<seq<byte>>, line: seq<byte>)
    requires forall i :: 0 <= i < |lines| ==> lines[i] != []
    requires line != []
    ensures Run(b, lines + [line]) == Push(Run(b, lines), line)
    decreases |lines|
  {
    if lines == [] {
      assert [line][1..] == [];
    } else {
      assert (lines + [line])[1..] == lines[1..] + [line];
      RunSnoc(Push(b, lines[0]), lines[1..], line);
    }
  }

  /** `finalize`: the sealed buffers, then the current one unless it is empty. */
  function Finalize(b: Batcher): (bufs: seq<seq<byte>>)
    ensures Concat(bufs) == Flatten(b)
    ensures Inv(b) ==> forall j :: 0 <= j < |bufs| ==> bufs[j] != []
  {
    if b.current != [] then
      ConcatAppend(b.buffers, [b.current]);
      ConcatSingle(b.current);
      b.buffers + [b.current]
    else
      assert Concat(b.buffers) + b.current == Concat(b.buffers);
      b.buffers
  }

  // ---- The greedy partition, defined independently ------------------------

  /** A group of lines that must be sealed: enough lines, or enough bytes. */
  predicate Full(g: seq<seq<byte>>) {
    |g| >= MaxLines || |Concat(g)| >= MaxBytes
  }

  /** The first `j` lines of `ls` are full. */
  predicate FullPrefix(ls: seq<seq<byte>>, j: nat)
    requires j <= |ls|
  {
    Full(ls[..j])
  }

  /** The length of the shortest full prefix of `ls` at least `k` long, or all of `ls`. */
  function FirstFullFrom(ls: seq<seq<byte>>, k: nat): (r: nat)
    requires 1 <= k <= |ls|
    ensures k <= r <= |ls|
    ensures r == |ls| || FullPrefix(ls, r)
    ensures forall j :: k <= j < r ==> !FullPrefix(ls, j)
    decreases |ls| - k
  {
    if k == |ls| || FullPrefix(ls, k) then k else FirstFullFrom(ls, k + 1)
  }

  /**
   The reference partition: cut at the shortest full prefix, then again on
   what is left.
   */
  function GreedyGroups(ls: seq<seq<byte>>): seq<seq<seq<byte>>>
    decreases |ls|
  {
    if ls == [] then []
    else
      var k := FirstFullFrom(ls, 1);
      [ls[..k]] + GreedyGroups(ls[k..])
  }

  /** The bytes of each group. */
  function MapConcat(gs: seq<seq<seq<byte>>>): seq<seq<byte>> {
    seq(|gs|, j requires 0 <= j < |gs| => Concat(gs[j]))
  }

  lemma FirstFullIs(ls: seq<seq<byte>>, k: nat, m: nat)
    requires 1 <= k <= m <= |ls|
    requires forall j :: k <= j < m ==> !FullPrefix(ls, j)
    requires m == |ls| || FullPrefix(ls, m)
    ensures FirstFullFrom(ls, k) == m
    decreases |ls| - k
  {
    if k < m {
      FirstFullIs(ls, k + 1, m);
    }
  }

  lemma ConcatSnoc(cur: seq<seq<byte>>, l: seq<byte>)
    ensures Concat(cur + [l]) == Concat(cur) + l
  {
    assert (cur + [l])[..|cur|] == cur;
  }

  predicate NoFullPrefix(cur: seq<seq<byte>>) {
    forall k :: 1 <= k <= |cur| ==> !FullPrefix(cur, k)
  }

  /** A buffer of lines none of whose prefixes is full yet is a single group. */
  lemma GreedySingle(cur: seq<seq<byte>>)
    requires cur != [] && NoFullPrefix(cur)
    ensures GreedyGroups(cur) == [cur]
  {
    FirstFullIs(cur, 1, |cur|);
    assert cur[..|cur|] == cur;
    assert cur[|cur|..] == [];
  }

  /** The line that makes the pending group full closes it. */
  lemma GreedyClose(cur: seq<seq<byte>>, lines: seq<seq<byte>>)
    requires lines != [] && NoFullPrefix(cur) && Full(cur + [lines[0]])
    ensures GreedyGroups(cur + lines) == [cur + [lines[0]]] + GreedyGroups(lines[1..])
  {
    var ls := cur + lines;
    assert ls[..|cur| + 1] == cur + [lines[0]];
    forall j | 1 <= j < |cur| + 1 ensures !FullPrefix(ls, j) {
      assert !FullPrefix(cur, j);
      assert ls[..j] == cur[..j];
    }
    FirstFullIs(ls, 1, |cur| + 1);
    assert ls[|cur| + 1..] == lines[1..];
  }

  /** A line that leaves the pending group below both bounds joins it. */
  lemma GreedyExtend(cur: seq<seq<byte>>, l: seq<byte>)
    requires NoFullPrefix(cur) && !Full(cur + [l])
    ensures NoFullPrefix(cur + [l])
  {
    var cur' := cur + [l];
    forall k | 1 <= k <= |cur'| ensures !FullPrefix(cur', k) {
      if k <= |cur| {
        assert !FullPrefix(cur, k);
        assert cur'[..k] == cur[..k];
      } else {
        assert cur'[..k] == cur';
      }
    }
  }

  /**
   Pushing lines onto a state whose current buffer holds the lines `cur`
   yields, once finalized, the sealed buffers followed by the greedy
   partition of `cur` and the new lines.
   */
  lemma {:induction false} RunIsGreedy(b: Batcher, cur: seq<seq<byte>>, lines: seq<seq<byte>>)
    requires b.current == Concat(cur) && b.currentLines == |cur|
    requires NoFullPrefix(cur)
    requires forall i :: 0 <= i < |cur| ==> cur[i] != []
    requires forall i :: 0 <= i < |lines| ==> lines[i] != []
    ensures Finalize(Run(b, lines)) == b.buffers + MapConcat(GreedyGroups(cur + lines))
    decreases |lines|, 2
  {
    if lines == [] {
      assert cur + lines == cur;
      if cur != [] {
        GreedySingle(cur);
        NonEmptyConcat(cur);
        MapConcatCons(cur, []);
        assert Finalize(b) == b.buffers + [Concat(cur)];
      } else {
        assert Finalize(b) == b.buffers + [];
      }
    } else if Full(cur + [lines[0]]) {
      RunClose(b, cur, lines);
    } else {
      RunExtend(b, cur, lines);
    }
  }

  lemma {:induction false} RunClose(b: Batcher, cur: seq<seq<byte>>, lines: seq<seq<byte>>)
    requires b.current == Concat(cur) && b.currentLines == |cur|
    requires NoFullPrefix(cur)
    requires lines != [] && Full(cur + [lines[0]])
    requires forall i :: 0 <= i < |lines| ==> lines[i] != []
    ensures Finalize(Run(b, lines)) == b.buffers + MapConcat(GreedyGroups(cur + lines))
    decreases |lines|, 1
  {
    RunCloseSeal(b, cur, lines);
    CloseGroups(cur, lines);
    Reassociate(Finalize(Run(b, lines)), MapConcat(GreedyGroups(cur + lines)),
                b.buffers, Concat(cur + [lines[0]]), MapConcat(GreedyGroups(lines[1..])));
  }

  lemma Reassociate(x: seq<seq<byte>>, y: seq<seq<byte>>, a: seq<seq<byte>>, c: seq<byte>, m: seq<seq<byte>>)
    requires x == a + [c] + m && y == [c] + m
    ensures x == a + y
  {
  }

  /** Where `RunClose` seals: the buffers after the seal, then whatever the rest of the lines make. */
  lemma {:induction false} RunCloseSeal(b: Batcher, cur: seq<seq<byte>>, lines: seq<seq<byte>>)
    requires b.current == Concat(cur) && b.currentLines == |cur|
    requires lines != [] && Full(cur + [lines[0]])
    requires forall i :: 0 <= i < |lines| ==> lines[i] != []
    ensures Finalize(Run(b, lines)) == b.buffers + [Concat(cur + [lines[0]])] + MapConcat(GreedyGroups(lines[1..]))
    decreases |lines|, 0
  {
    RunCons(b, lines);
    PushSeals(b, cur, lines[0]);
    RunFromSealed(Push(b, lines[0]), lines[1..]);
  }

  /** After a seal the batcher groups the remaining lines as the greedy partition does. */
  lemma {:induction false} RunFromSealed(b: Batcher, lines: seq<seq<byte>>)
    requires b.current == [] && b.currentLines == 0
    requires forall i :: 0 <= i < |lines| ==> lines[i] != []
    ensures Finalize(Run(b, lines)) == b.buffers + MapConcat(GreedyGroups(lines))
    decreases |lines|, 3
  {
    assert [] + lines == lines;
    RunIsGreedy(b, [], lines);
  }

  lemma CloseGroups(cur: seq<seq<byte>>, lines: seq<seq<byte>>)
    requires lines != [] && NoFullPrefix(cur) && Full(cur + [lines[0]])
    ensures MapConcat(GreedyGroups(cur + lines)) == [Concat(cur + [lines[0]])] + MapConcat(GreedyGroups(lines[1..]))
  {
    GreedyClose(cur, lines);
    MapConcatCons(cur + [lines[0]], GreedyGroups(lines[1..]));
  }

  lemma RunCons(b: Batcher, lines: seq<seq<byte>>)
    requires lines != []
    requires forall i :: 0 <= i < |lines| ==> lines[i] != []
    ensures Run(b, lines) == Run(Push(b, lines[0]), lines[1..])
  {
  }

  lemma PushSeals(b: Batcher, cur: seq<seq<byte>>, l: seq<byte>)
    requires b.current == Concat(cur) && b.currentLines == |cur|
    requires l != [] && Full(cur + [l])
    ensures Push(b, l).buffers == b.buffers + [Concat(cur + [l])]
    ensures Push(b, l).current == [] && Push(b, l).currentLines == 0
  {
    ConcatSnoc(cur, l);
  }

  lemma {:induction false} RunExtend(b: Batcher, cur: seq<seq<byte>>, lines: seq<seq<byte>>)
    requires b.current == Concat(cur) && b.currentLines == |cur|
    requires NoFullPrefix(cur)
    requires forall i :: 0 <= i < |cur| ==> cur[i] != []
    requires lines != [] && !Full(cur + [lines[0]])
    requires forall i :: 0 <= i < |lines| ==> lines[i] != []
    ensures Finalize(Run(b, lines)) == b.buffers + MapConcat(GreedyGroups(cur + lines))
    decreases |lines|, 0
  {
    var l := lines[0];
    var rest := lines[1..];
    ConcatSnoc(cur, l);
    var b' := Push(b, l);
    RunCons(b, lines);
    GreedyExtend(cur, l);
    var cur' := cur + [l];
    assert forall i :: 0 <= i < |cur'| ==> cur'[i] != [];
    RunIsGreedy(b', cur', rest);
    SplitFirst(cur, lines);
  }

  lemma SplitFirst(cur: seq<seq<byte>>, lines: seq<seq<byte>>)
    requires lines != []
    ensures (cur + [lines[0]]) + lines[1..] == cur + lines
  {
  }

  lemma MapConcatCons(g: seq<seq<byte>>, gs: seq<seq<seq<byte>>>)
    ensures MapConcat([g] + gs) == [Concat(g)] + MapConcat(gs)
  {
    assert ([g] + gs)[1..] == gs;
  }

  lemma {:induction false} NonEmptyConcat(ls: seq<seq<byte>>)
    requires ls != [] && forall i :: 0 <= i < |ls| ==> ls[i] != []
    ensures Concat(ls) != []
  {
  }

  /** The buffers `finalize` yields are the byte strings of the greedy partition. */
  lemma BatchingIsGreedy(precision: TimestampPrecision, defaultTags: seq<(TagName, string)>, lines: seq<seq<byte>>)
    requires forall i :: 0 <= i < |lines| ==> lines[i] != []
    ensures Finalize(Run(New(precision, defaultTags), lines)) == MapConcat(GreedyGroups(lines))
  {
    RunIsGreedy(New(precision, defaultTags), [], lines);
    assert [] + lines == lines;
  }

  predicate NoProperFullPrefix(g: seq<seq<byte>>) {
    forall j :: 1 <= j < |g| ==> !FullPrefix(g, j)
  }

  /** What every group of the greedy partition is: whole lines, at most `MAX_LINES` of them, cut at the first full prefix. */
  predicate GoodGroup(g: seq<seq<byte>>) {
    g != [] && |g| <= MaxLines && NoProperFullPrefix(g)
  }

  /** The first group: good, and full unless it is all that is left. */
  lemma FirstGroup(ls: seq<seq<byte>>)
    requires ls != []
    ensures var k := FirstFullFrom(ls, 1);
      GoodGroup(ls[..k]) && (k < |ls| ==> FullPrefix(ls, k))
  {
    var k := FirstFullFrom(ls, 1);
    var g := ls[..k];
    FullAtMaxLines(ls);
    forall j | 1 <= j < |g| ensures !FullPrefix(g, j) {
      assert !FullPrefix(ls, j);
      assert g[..j] == ls[..j];
    }
  }

  lemma FullAtMaxLines(ls: seq<seq<byte>>)
    ensures |ls| >= MaxLines ==> FullPrefix(ls, MaxLines)
  {
  }

  /** The greedy partition cuts the lines into groups that concatenate back to them, in order. */
  lemma {:induction false} GreedyConcat(ls: seq<seq<byte>>)
    ensures Concat(GreedyGroups(ls)) == ls
    decreases |ls|
  {
    if ls != [] {
      var k := FirstFullFrom(ls, 1);
      var head := ls[..k];
      var rest := ls[k..];
      assert GreedyGroups(ls) == [head] + GreedyGroups(rest);
      GreedyConcat(rest);
      ConcatAppend([head], GreedyGroups(rest));
      ConcatSingle(head);
      assert head + rest == ls;
    }
  }

  /** Every group is good, and every group but the last is full. */
  lemma {:induction false} GreedyGroupsShape(ls: seq<seq<byte>>)
    ensures forall j :: 0 <= j < |GreedyGroups(ls)| ==> GoodGroup(GreedyGroups(ls)[j])
    ensures forall j :: 0 <= j < |GreedyGroups(ls)| - 1 ==> Full(GreedyGroups(ls)[j])
    decreases |ls|
  {
    if ls != [] {
      var k := FirstFullFrom(ls, 1);
      var gs := GreedyGroups(ls[k..]);
      GreedyGroupsShape(ls[k..]);
      FirstGroup(ls);
      var all := GreedyGroups(ls);
      assert all == [ls[..k]] + gs;
      forall j | 0 <= j < |all| ensures GoodGroup(all[j]) {
        if j > 0 {
          assert all[j] == gs[j - 1];
        }
      }
      forall j | 0 <= j < |all| - 1 ensures Full(all[j]) {
        if j > 0 {
          assert all[j] == gs[j - 1];
        } else {
          assert k < |ls|;
        }
      }
    }
  }

  lemma {:induction false} ConcatConcat(gs: seq<seq<seq<byte>>>)
    ensures Concat(MapConcat(gs)) == Concat(Concat(gs))
    decreases |gs|
  {
    if gs != [] {
      ConcatConcat(gs[1..]);
      assert gs == [gs[0]] + gs[1..];
      MapConcatCons(gs[0], gs[1..]);
      ConcatAppend([gs[0]], gs[1..]);
      ConcatAppend([Concat(gs[0])], MapConcat(gs[1..]));
      ConcatAppend(gs[0], Concat(gs[1..]));
      ConcatSingle(gs[0]);
      ConcatSingle(Concat(gs[0]));
    }
  }

  /**
   The batching theorem: the buffers hold exactly the lines, in order, each
   buffer a run of whole lines; none is empty; none holds more than
   `MAX_LINES` lines; every buffer but the last was sealed because it was
   full; and no point yields no buffer at all.
   */
  lemma Batching(precision: TimestampPrecision, defaultTags: seq<(TagName, string)>, lines: seq<seq<byte>>)
    requires forall i :: 0 <= i < |lines| ==> lines[i] != []
    ensures var bufs := Finalize(Run(New(precision, defaultTags), lines));
      var gs := GreedyGroups(lines);
      && Concat(bufs) == Concat(lines)
      && |bufs| == |gs|
      && Concat(gs) == lines
      && (forall j :: 0 <= j < |bufs| ==> bufs[j] == Concat(gs[j]) && bufs[j] != [])
      && (forall j :: 0 <= j < |gs| ==> 1 <= |gs[j]| <= MaxLines)
      && (forall j :: 0 <= j < |gs| - 1 ==> |gs[j]| == MaxLines || |bufs[j]| >= MaxBytes)
      && (lines == [] <==> bufs == [])
  {
    BatchingContents(precision, defaultTags, lines);
    BatchingShape(precision, defaultTags, lines);
  }

  /** The buffers are the greedy groups' bytes, and together they are all the lines. */
  lemma BatchingContents(precision: TimestampPrecision, defaultTags: seq<(TagName, string)>, lines: seq<seq<byte>>)
    requires forall i :: 0 <= i < |lines| ==> lines[i] != []
    ensures var bufs := Finalize(Run(New(precision, defaultTags), lines));
      var gs := GreedyGroups(lines);
      && Concat(bufs) == Concat(lines)
      && |bufs| == |gs|
      && Concat(gs) == lines
      && (forall j :: 0 <= j < |bufs| ==> bufs[j] == Concat(gs[j]) && bufs[j] != [])
  {
    var gs := GreedyGroups(lines);
    var bufs := Finalize(Run(New(precision, defaultTags), lines));
    BatchingIsGreedy(precision, defaultTags, lines);
    GreedyConcat(lines);
    RunPreserves(New(precision, defaultTags), lines);
    BuffersConcat(bufs, gs, lines);
  }

  /** Each group is 1 to `MAX_LINES` lines, every buffer but the last is full, and no lines give no buffers. */
  lemma BatchingShape(precision: TimestampPrecision, defaultTags: seq<(TagName, string)>, lines: seq<seq<byte>>)
    requires forall i :: 0 <= i < |lines| ==> lines[i] != []
    ensures var bufs := Finalize(Run(New(precision, defaultTags), lines));
      var gs := GreedyGroups(lines);
      && |bufs| == |gs|
      && (forall j :: 0 <= j < |gs| ==> 1 <= |gs[j]| <= MaxLines)
      && (forall j :: 0 <= j < |gs| - 1 ==> |gs[j]| == MaxLines || |bufs[j]| >= MaxBytes)
      && (lines == [] <==> bufs == [])
  {
    var gs := GreedyGroups(lines);
    var bufs := Finalize(Run(New(precision, defaultTags), lines));
    BatchingIsGreedy(precision, defaultTags, lines);
    GreedyGroupsShape(lines);
    if lines != [] {
      assert gs != [];
    }
    forall j | 0 <= j < |gs| ensures 1 <= |gs[j]| <= MaxLines {
      GoodGroupSize(gs[j]);
    }
    forall j | 0 <= j < |gs| - 1 ensures |gs[j]| == MaxLines || |bufs[j]| >= MaxBytes {
      GoodGroupSize(gs[j]);
      assert Full(gs[j]) && bufs[j] == Concat(gs[j]);
    }
  }

  /**
   End to end: the lines `add_points` appends to a new batcher are the
   points' own lines, and the buffers `finalize` returns put together are
   exactly those lines, in the order the points were added.
   */
  lemma AddedPointsBuffered(precision: TimestampPrecision, defaultEs: seq<(TagName, string)>, xs: seq<Listed>, ft: FloatText, lines: seq<seq<byte>>)
    requires forall i :: 0 <= i < |xs| ==> WellListed(xs[i], precision)
    requires LinesOf(lines, xs, precision, defaultEs, ft)
    ensures forall i :: 0 <= i < |lines| ==> lines[i] != []
    ensures Concat(Finalize(Run(New(precision, defaultEs), lines))) == Concat(lines)
    ensures |lines| == |xs| && forall i :: 0 <= i < |xs| ==> lines[i] == LineOf(xs[i], precision, defaultEs, ft)
  {
    forall i | 0 <= i < |lines| ensures lines[i] != [] {
      LineOfNonEmpty(xs[i], precision, defaultEs, ft);
    }
    BatchingContents(precision, defaultEs, lines);
  }

  /** Buffers made of groups that make up the lines hold exactly the lines' bytes. */
  lemma BuffersConcat(bufs: seq<seq<byte>>, gs: seq<seq<seq<byte>>>, lines: seq<seq<byte>>)
    requires bufs == MapConcat(gs) && Concat(gs) == lines
    ensures Concat(bufs) == Concat(lines)
  {
    ConcatConcat(gs);
  }

  lemma GoodGroupSize(g: seq<seq<byte>>)
    requires GoodGroup(g)
    ensures 1 <= |g| <= MaxLines
  {
  }

  lemma {:induction false} ConcatLengthBound(ls: seq<seq<byte>>, w: nat)
    requires forall i :: 0 <= i < |ls| ==> |ls[i]| <= w
    ensures |Concat(ls)| <= |ls| * w
  {
    if ls != [] {
      var init := ls[..|ls| - 1];
      ConcatLengthBound(init, w);
      assert |Concat(ls)| == |Concat(init)| + |ls[|ls| - 1]|;
      assert |ls| * w == |init| * w + w;
    }
  }

  /**
   Ten thousand and one lines of at most 1048 bytes make exactly two
   buffers: the first ten thousand lines, then the last one.
   */
  lemma TenThousandAndOne(precision: TimestampPrecision, defaultTags: seq<(TagName, string)>, lines: seq<seq<byte>>)
    requires |lines| == MaxLines + 1
    requires forall i :: 0 <= i < |lines| ==> 1 <= |lines[i]| <= 1048
    ensures Finalize(Run(New(precision, defaultTags), lines)) == [Concat(lines[..MaxLines]), lines[MaxLines]]
  {
    BatchingIsGreedy(precision, defaultTags, lines);
    forall j | 1 <= j < MaxLines ensures !FullPrefix(lines, j) {
      ConcatLengthBound(lines[..j], 1048);
    }
    FirstFullIs(lines, 1, MaxLines);
    var tail := lines[MaxLines..];
    assert tail == [lines[MaxLines]];
    FirstFullIs(tail, 1, 1);
    assert tail[..1] == tail && tail[1..] == [];
    assert GreedyGroups(tail) == [tail];
    assert Concat(tail) == lines[MaxLines] by {
      assert tail[..0] == [];
    }
  }
}
