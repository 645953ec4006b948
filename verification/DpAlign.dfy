/**
 The minimum-edit sequence aligner: a rolling-row cost, a full-table aligner with backtrace, and
 a divide-and-conquer aligner that keeps only two rows.

 What an alignment IS comes first (`Aligns`), with no costs in it. The recurrence the tables
 fill (`Dist`) is then shown to be the least number of extras of any alignment.
 */
module DpAlign {

  type Key(==, !new)
  type Meta(==, !new)
  type MatchFn = (Key, Key) -> bool

  datatype PayloadTarget = PayloadTarget(key: Key, payload: Meta)
  datatype ReferenceTarget = ReferenceTarget(key: Key, payload: Meta)

  datatype ExtraType = Payload | Reference

  datatype Record =
    | Match(key: Key, payload: Meta, referencePayload: Meta)
    | Extra(key: Key, extraType: ExtraType, payload: Meta)

  function Init<T>(s: seq<T>): seq<T>
    requires |s| > 0
  {
    s[..|s| - 1]
  }

  function Last<T>(s: seq<T>): T
    requires |s| > 0
  {
    s[|s| - 1]
  }

  function Reverse<T>(s: seq<T>): (t: seq<T>)
    ensures |t| == |s|
    ensures forall i :: 0 <= i < |s| ==> t[i] == s[|s| - 1 - i]
  {
    if |s| == 0 then [] else [Last(s)] + Reverse(Init(s))
  }

  // ----- What an alignment is

  /** `out` consumes exactly `r` and `p`, in order; a `Match` consumes one of each, and only when
      the keys match. */
  ghost predicate Aligns(out: seq<Record>, r: seq<ReferenceTarget>, p: seq<PayloadTarget>, f: MatchFn)
    decreases |out|
  {
    if |out| == 0 then
      |r| == 0 && |p| == 0
    else
      match Last(out)
      case Match(k, m, rm) =>
        |r| > 0 && |p| > 0 && Last(r) == ReferenceTarget(k, rm) && Last(p).payload == m &&
        f(k, Last(p).key) && Aligns(Init(out), Init(r), Init(p), f)
      case Extra(k, Payload, m) =>
        |p| > 0 && Last(p) == PayloadTarget(k, m) && Aligns(Init(out), r, Init(p), f)
      case Extra(k, Reference, m) =>
        |r| > 0 && Last(r) == ReferenceTarget(k, m) && Aligns(Init(out), Init(r), p, f)
  }

  function Extras(out: seq<Record>): nat {
    if |out| == 0 then 0 else Extras(Init(out)) + if Last(out).Extra? then 1 else 0
  }

  function Matches(out: seq<Record>): nat {
    if |out| == 0 then 0 else Matches(Init(out)) + if Last(out).Match? then 1 else 0
  }

  /** The reference side of the records, with metadata. */
  function ReferenceSide(out: seq<Record>): seq<ReferenceTarget> {
    if |out| == 0 then [] else
      ReferenceSide(Init(out)) +
      match Last(out) {
        case Match(k, _, rm) => [ReferenceTarget(k, rm)]
        case Extra(k, Reference, m) => [ReferenceTarget(k, m)]
        case Extra(_, Payload, _) => []
      }
  }

  /** The payload metadata of the records; a `Match` does not keep the payload's key. */
  function PayloadSide(out: seq<Record>): seq<Meta> {
    if |out| == 0 then [] else
      PayloadSide(Init(out)) +
      match Last(out) {
        case Match(_, m, _) => [m]
        case Extra(_, Payload, m) => [m]
        case Extra(_, Reference, _) => []
      }
  }

  function Metas(p: seq<PayloadTarget>): seq<Meta> {
    seq(|p|, i requires 0 <= i < |p| => p[i].payload)
  }

  lemma {:induction false} AlignmentSnoc(o: seq<Record>, e: Record, r: seq<ReferenceTarget>, p: seq<PayloadTarget>,
                                         f: MatchFn)
    requires match e
             case Match(k, m, rm) => |r| > 0 && |p| > 0 && Last(r) == ReferenceTarget(k, rm) &&
                                     Last(p).payload == m && f(k, Last(p).key) && Aligns(o, Init(r), Init(p), f)
             case Extra(k, Payload, m) => |p| > 0 && Last(p) == PayloadTarget(k, m) && Aligns(o, r, Init(p), f)
             case Extra(k, Reference, m) => |r| > 0 && Last(r) == ReferenceTarget(k, m) && Aligns(o, Init(r), p, f)
    ensures Aligns(o + [e], r, p, f)
    ensures Extras(o + [e]) == Extras(o) + if e.Extra? then 1 else 0
    ensures Matches(o + [e]) == Matches(o) + if e.Match? then 1 else 0
  {
    assert Init(o + [e]) == o;
  }

  /** An alignment gives back both inputs, in order and with their metadata. */
  lemma {:induction false} AlignmentConserves(out: seq<Record>, r: seq<ReferenceTarget>, p: seq<PayloadTarget>,
                                              f: MatchFn)
    requires Aligns(out, r, p, f)
    ensures ReferenceSide(out) == r
    ensures PayloadSide(out) == Metas(p)
    decreases |out|
  {
    if |out| > 0 {
      match Last(out)
      case Match(_, _, _) =>
        AlignmentConserves(Init(out), Init(r), Init(p), f);
        MetasSnoc(p);
      case Extra(_, Payload, _) =>
        AlignmentConserves(Init(out), r, Init(p), f);
        MetasSnoc(p);
      case Extra(_, Reference, _) =>
        AlignmentConserves(Init(out), Init(r), p, f);
    }
  }

  lemma MetasSnoc(p: seq<PayloadTarget>)
    requires |p| > 0
    ensures Metas(p) == Metas(Init(p)) + [Last(p).payload]
  {
  }

  lemma {:induction false} AlignmentCounts(out: seq<Record>, r: seq<ReferenceTarget>, p: seq<PayloadTarget>, f: MatchFn)
    requires Aligns(out, r, p, f)
    ensures Extras(out) + 2 * Matches(out) == |r| + |p|
    decreases |out|
  {
    if |out| > 0 {
      match Last(out)
      case Match(_, _, _) => AlignmentCounts(Init(out), Init(r), Init(p), f);
      case Extra(_, Payload, _) => AlignmentCounts(Init(out), r, Init(p), f);
      case Extra(_, Reference, _) => AlignmentCounts(Init(out), Init(r), p, f);
    }
  }

  lemma {:induction false} AlignmentConcat(o1: seq<Record>, r1: seq<ReferenceTarget>, p1: seq<PayloadTarget>,
                                           o2: seq<Record>, r2: seq<ReferenceTarget>, p2: seq<PayloadTarget>,
                                             f: MatchFn)
    requires Aligns(o1, r1, p1, f) && Aligns(o2, r2, p2, f)
    ensures Aligns(o1 + o2, r1 + r2, p1 + p2, f)
    ensures Extras(o1 + o2) == Extras(o1) + Extras(o2)
    decreases |o2|
  {
    if |o2| == 0 {
      assert o1 + o2 == o1 && r1 + r2 == r1 && p1 + p2 == p1;
    } else {
      assert Init(o1 + o2) == o1 + Init(o2);
      if |r2| > 0 { assert Init(r1 + r2) == r1 + Init(r2); } else { assert r1 + r2 == r1; }
      if |p2| > 0 { assert Init(p1 + p2) == p1 + Init(p2); } else { assert p1 + p2 == p1; }
      match Last(o2)
      case Match(_, _, _) => AlignmentConcat(o1, r1, p1, Init(o2), Init(r2), Init(p2), f);
      case Extra(_, Payload, _) => AlignmentConcat(o1, r1, p1, Init(o2), r2, Init(p2), f);
      case Extra(_, Reference, _) => AlignmentConcat(o1, r1, p1, Init(o2), Init(r2), p2, f);
    }
  }

  lemma {:induction false} AlignmentReverse(out: seq<Record>, r: seq<ReferenceTarget>, p: seq<PayloadTarget>,
                                            f: MatchFn)
    requires Aligns(out, r, p, f)
    ensures Aligns(Reverse(out), Reverse(r), Reverse(p), f)
    ensures Extras(Reverse(out)) == Extras(out)
    decreases |out|
  {
    if |out| > 0 {
      var e := [Last(out)];
      assert Init(e) == [];
      match Last(out)
      case Match(_, _, _) =>
        AlignmentReverse(Init(out), Init(r), Init(p), f);
        assert Aligns(e, [Last(r)], [Last(p)], f);
        AlignmentConcat(e, [Last(r)], [Last(p)], Reverse(Init(out)), Reverse(Init(r)), Reverse(Init(p)), f);
      case Extra(_, Payload, _) =>
        AlignmentReverse(Init(out), r, Init(p), f);
        assert Aligns(e, [], [Last(p)], f);
        AlignmentConcat(e, [], [Last(p)], Reverse(Init(out)), Reverse(r), Reverse(Init(p)), f);
        assert [] + Reverse(r) == Reverse(r);
      case Extra(_, Reference, _) =>
        AlignmentReverse(Init(out), Init(r), p, f);
        assert Aligns(e, [Last(r)], [], f);
        AlignmentConcat(e, [Last(r)], [], Reverse(Init(out)), Reverse(Init(r)), Reverse(p), f);
        assert [] + Reverse(p) == Reverse(p);
    }
  }

  /** An alignment of `r` can be cut where it has consumed `mid` reference items. */
  lemma {:induction false} AlignmentCut(out: seq<Record>, r: seq<ReferenceTarget>, p: seq<PayloadTarget>, f: MatchFn,
                                        mid: nat)
    returns (n: nat, k: nat)
    requires Aligns(out, r, p, f) && mid <= |r|
    ensures n <= |out| && k <= |p|
    ensures Aligns(out[..n], r[..mid], p[..k], f)
    ensures Aligns(out[n..], r[mid..], p[k..], f)
    ensures Extras(out) == Extras(out[..n]) + Extras(out[n..])
    decreases |out|
  {
    if |r| == mid {
      n, k := |out|, |p|;
      assert out[..n] == out && r[..mid] == r && p[..k] == p;
    } else {
      var init, e := Init(out), Last(out);
      assert out == init + [e];
      match e
      case Match(_, _, _) =>
        n, k := AlignmentCut(init, Init(r), Init(p), f, mid);
        CutSides(init, e, n, r, mid, Init(r), p, k, Init(p));
        AlignmentSnoc(init[n..], e, r[mid..], p[k..], f);
      case Extra(_, Payload, _) =>
        n, k := AlignmentCut(init, r, Init(p), f, mid);
        CutSides(init, e, n, r, mid, r, p, k, Init(p));
        AlignmentSnoc(init[n..], e, r[mid..], p[k..], f);
      case Extra(_, Reference, _) =>
        n, k := AlignmentCut(init, Init(r), p, f, mid);
        CutSides(init, e, n, r, mid, Init(r), p, k, p);
        AlignmentSnoc(init[n..], e, r[mid..], p[k..], f);
    }
  }

  lemma CutSides(init: seq<Record>, e: Record, n: nat, r: seq<ReferenceTarget>, mid: nat, r': seq<ReferenceTarget>,
                 p: seq<PayloadTarget>, k: nat, p': seq<PayloadTarget>)
    requires n <= |init| && mid <= |r'| && k <= |p'|
    requires r' == r || (|r| > 0 && r' == Init(r))
    requires p' == p || (|p| > 0 && p' == Init(p))
    ensures (init + [e])[..n] == init[..n] && (init + [e])[n..] == init[n..] + [e]
    ensures r'[..mid] == r[..mid] && p'[..k] == p[..k]
    ensures r' != r ==> r'[mid..] == Init(r[mid..]) && Last(r) == Last(r[mid..])
    ensures p' != p ==> p'[k..] == Init(p[k..]) && Last(p) == Last(p[k..])
  {
  }

  // ----- The recurrence, and what it means

  function Cost(isMatch: bool): nat {
    if isMatch then 0 else 2
  }

  function Min3(a: nat, b: nat, c: nat): nat {
    if a <= b && a <= c then a else if b <= c then b else c
  }

  /** The least cost of turning the first `i` reference items into the first `j` payload items. */
  function Dist(r: seq<ReferenceTarget>, p: seq<PayloadTarget>, f: MatchFn, i: nat, j: nat): nat
    requires i <= |r| && j <= |p|
    decreases i + j
  {
    if i == 0 then j
    else if j == 0 then i
    else Min3(Dist(r, p, f, i - 1, j - 1) + Cost(f(r[i - 1].key, p[j - 1].key)),
              Dist(r, p, f, i - 1, j) + 1,
              Dist(r, p, f, i, j - 1) + 1)
  }

  function Distance(r: seq<ReferenceTarget>, p: seq<PayloadTarget>, f: MatchFn): nat {
    Dist(r, p, f, |r|, |p|)
  }

  lemma {:induction false} DistIsLowerBound(out: seq<Record>, r: seq<ReferenceTarget>, p: seq<PayloadTarget>,
                                            f: MatchFn, i: nat, j: nat)
    requires i <= |r| && j <= |p| && Aligns(out, r[..i], p[..j], f)
    ensures Dist(r, p, f, i, j) <= Extras(out)
    decreases |out|
  {
    if |out| > 0 {
      if i > 0 { assert Init(r[..i]) == r[..i - 1]; }
      if j > 0 { assert Init(p[..j]) == p[..j - 1]; }
      match Last(out)
      case Match(_, _, _) => DistIsLowerBound(Init(out), r, p, f, i - 1, j - 1);
      case Extra(_, Payload, _) => DistIsLowerBound(Init(out), r, p, f, i, j - 1);
      case Extra(_, Reference, _) => DistIsLowerBound(Init(out), r, p, f, i - 1, j);
    }
  }

  lemma DistanceIsLowerBound(out: seq<Record>, r: seq<ReferenceTarget>, p: seq<PayloadTarget>, f: MatchFn)
    requires Aligns(out, r, p, f)
    ensures Distance(r, p, f) <= Extras(out)
  {
    assert r[..|r|] == r && p[..|p|] == p;
    DistIsLowerBound(out, r, p, f, |r|, |p|);
  }

  // ----- Full-table alignment

  datatype OutputType = MATCH | EXTRA_PAYLOAD | EXTRA_REFERENCE | EXTRA_BOTH

  datatype Step = Start | Back(action: OutputType, ref: nat, pay: nat)

  datatype Cell = Cell(dist: nat, step: Step)

  /** The cell (i, j) from the distances diagonally before, above and to the left of it. */
  function BestStep(isMatch: bool, diagonal: nat, above: nat, left: nat, i: nat, j: nat): Cell
    requires i > 0 && j > 0
  {
    var sub, del, ins := diagonal + Cost(isMatch), above + 1, left + 1;
    if sub <= del && sub <= ins then Cell(sub, Back(if isMatch then MATCH else EXTRA_BOTH, i - 1, j - 1))
    else if del <= sub && del <= ins then Cell(del, Back(EXTRA_REFERENCE, i - 1, j))
    else Cell(ins, Back(EXTRA_PAYLOAD, i, j - 1))
  }

  /** The table entry for the first `i` reference items and the first `j` payload items. A
      substitution is preferred on ties, then a deletion. */
  function CellAt(r: seq<ReferenceTarget>, p: seq<PayloadTarget>, f: MatchFn, i: nat, j: nat): (c: Cell)
    requires i <= |r| && j <= |p|
    ensures c.dist == Dist(r, p, f, i, j)
  {
    if i == 0 && j == 0 then Cell(0, Start)
    else if i == 0 then Cell(j, Back(EXTRA_PAYLOAD, 0, j - 1))
    else if j == 0 then Cell(i, Back(EXTRA_REFERENCE, i - 1, 0))
    else
      BestStep(f(r[i - 1].key, p[j - 1].key), Dist(r, p, f, i - 1, j - 1), Dist(r, p, f, i - 1, j),
               Dist(r, p, f, i, j - 1), i, j)
  }

  /** The records one step of the backtrace stands for, in output order. */
  function Emitted(r: seq<ReferenceTarget>, p: seq<PayloadTarget>, step: Step): seq<Record>
    requires step.Back?
    requires step.action != EXTRA_PAYLOAD ==> step.ref < |r|
    requires step.action != EXTRA_REFERENCE ==> step.pay < |p|
  {
    match step.action
    case MATCH => [Match(r[step.ref].key, p[step.pay].payload, r[step.ref].payload)]
    case EXTRA_PAYLOAD => [Extra(p[step.pay].key, Payload, p[step.pay].payload)]
    case EXTRA_REFERENCE => [Extra(r[step.ref].key, Reference, r[step.ref].payload)]
    case EXTRA_BOTH => [Extra(r[step.ref].key, Reference, r[step.ref].payload),
                        Extra(p[step.pay].key, Payload, p[step.pay].payload)]
  }

  /** The records the backtrace from cell (i, j) produces. */
  function Trace(r: seq<ReferenceTarget>, p: seq<PayloadTarget>, f: MatchFn, i: nat, j: nat): seq<Record>
    requires i <= |r| && j <= |p|
    decreases i + j
  {
    var step := CellAt(r, p, f, i, j).step;
    if step.Start? then [] else Trace(r, p, f, step.ref, step.pay) + Emitted(r, p, step)
  }

  /** Backtracing from any cell gives an alignment of the two prefixes with exactly the cell's
      number of extras. */
  lemma {:induction false} TraceAligns(r: seq<ReferenceTarget>, p: seq<PayloadTarget>, f: MatchFn, i: nat, j: nat)
    requires i <= |r| && j <= |p|
    ensures Aligns(Trace(r, p, f, i, j), r[..i], p[..j], f)
    ensures Extras(Trace(r, p, f, i, j)) == CellAt(r, p, f, i, j).dist
    decreases i + j
  {
    var step := CellAt(r, p, f, i, j).step;
    if step.Back? {
      TraceAligns(r, p, f, step.ref, step.pay);
      StepIsMove(r, p, f, i, j);
      StepAligns(Trace(r, p, f, step.ref, step.pay), r, p, f, step, i, j);
    }
  }

  /** `step` leads from (i, j) to the cell before it, and a `MATCH` step only where keys match. */
  predicate IsMove(r: seq<ReferenceTarget>, p: seq<PayloadTarget>, f: MatchFn, step: Step, i: nat, j: nat)
    requires i <= |r| && j <= |p|
  {
    step.Back? &&
    match step.action
    case MATCH => i > 0 && j > 0 && step.ref == i - 1 && step.pay == j - 1 && f(r[i - 1].key, p[j - 1].key)
    case EXTRA_BOTH => i > 0 && j > 0 && step.ref == i - 1 && step.pay == j - 1
    case EXTRA_REFERENCE => i > 0 && step.ref == i - 1 && step.pay == j
    case EXTRA_PAYLOAD => j > 0 && step.ref == i && step.pay == j - 1
  }

  function MoveCost(action: OutputType): nat {
    match action case MATCH => 0 case EXTRA_BOTH => 2 case _ => 1
  }

  lemma StepIsMove(r: seq<ReferenceTarget>, p: seq<PayloadTarget>, f: MatchFn, i: nat, j: nat)
    requires i <= |r| && j <= |p| && CellAt(r, p, f, i, j).step.Back?
    ensures var step := CellAt(r, p, f, i, j).step;
            IsMove(r, p, f, step, i, j) &&
              Dist(r, p, f, i, j) == Dist(r, p, f, step.ref, step.pay) + MoveCost(step.action)
  {
  }

  lemma StepAligns(t: seq<Record>, r: seq<ReferenceTarget>, p: seq<PayloadTarget>, f: MatchFn, step: Step, i: nat,
                   j: nat)
    requires i <= |r| && j <= |p| && IsMove(r, p, f, step, i, j)
    requires Aligns(t, r[..step.ref], p[..step.pay], f)
    ensures Aligns(t + Emitted(r, p, step), r[..i], p[..j], f)
    ensures Extras(t + Emitted(r, p, step)) == Extras(t) + MoveCost(step.action)
  {
    var a, b := r[..i], p[..j];
    if i > 0 { assert Init(a) == r[..i - 1] && Last(a) == r[i - 1]; }
    if j > 0 { assert Init(b) == p[..j - 1] && Last(b) == p[j - 1]; }
    match step.action
    case EXTRA_BOTH => SubstitutionAligns(t, a, b, f);
    case MATCH => AlignmentSnoc(t, Match(r[i - 1].key, p[j - 1].payload, r[i - 1].payload), a, b, f);
    case EXTRA_PAYLOAD => AlignmentSnoc(t, Extra(p[j - 1].key, Payload, p[j - 1].payload), a, b, f);
    case EXTRA_REFERENCE => AlignmentSnoc(t, Extra(r[i - 1].key, Reference, r[i - 1].payload), a, b, f);
  }

  lemma DeletionAligns(t: seq<Record>, r: seq<ReferenceTarget>, p: seq<PayloadTarget>, f: MatchFn)
    requires |r| > 0 && Aligns(t, Init(r), p, f)
    ensures var out := t + [Extra(Last(r).key, Reference, Last(r).payload)];
            Aligns(out, r, p, f) && Extras(out) == Extras(t) + 1
  {
    AlignmentSnoc(t, Extra(Last(r).key, Reference, Last(r).payload), r, p, f);
  }

  lemma InsertionAligns(t: seq<Record>, r: seq<ReferenceTarget>, p: seq<PayloadTarget>, f: MatchFn)
    requires |p| > 0 && Aligns(t, r, Init(p), f)
    ensures var out := t + [Extra(Last(p).key, Payload, Last(p).payload)];
            Aligns(out, r, p, f) && Extras(out) == Extras(t) + 1
  {
    AlignmentSnoc(t, Extra(Last(p).key, Payload, Last(p).payload), r, p, f);
  }

  lemma TwoAppended<T>(t: seq<T>, x: T, y: T)
    ensures t + [x] + [y] == t + [x, y]
  {
  }

  lemma SubstitutionAligns(t: seq<Record>, r: seq<ReferenceTarget>, p: seq<PayloadTarget>, f: MatchFn)
    requires |r| > 0 && |p| > 0 && Aligns(t, Init(r), Init(p), f)
    ensures var out := t + [Extra(Last(r).key, Reference, Last(r).payload),
                            Extra(Last(p).key, Payload, Last(p).payload)];
            Aligns(out, r, p, f) && Extras(out) == Extras(t) + 2
  {
    var deleted := Extra(Last(r).key, Reference, Last(r).payload);
    DeletionAligns(t, r, Init(p), f);
    InsertionAligns(t + [deleted], r, p, f);
    TwoAppended(t, deleted, Extra(Last(p).key, Payload, Last(p).payload));
  }

  /** `_align_small`: what the full-table aligner returns. */
  function SmallAlignment(r: seq<ReferenceTarget>, p: seq<PayloadTarget>, f: MatchFn): seq<Record> {
    Trace(r, p, f, |r|, |p|)
  }

  lemma SmallAlignmentAligns(r: seq<ReferenceTarget>, p: seq<PayloadTarget>, f: MatchFn)
    ensures Aligns(SmallAlignment(r, p, f), r, p, f)
    ensures Extras(SmallAlignment(r, p, f)) == Distance(r, p, f)
  {
    TraceAligns(r, p, f, |r|, |p|);
    assert r[..|r|] == r && p[..|p|] == p;
  }

  /** A table entry depends on its two prefixes only. */
  lemma DistOfPrefixes(r: seq<ReferenceTarget>, p: seq<PayloadTarget>, f: MatchFn, i: nat, j: nat)
    requires i <= |r| && j <= |p|
    ensures Dist(r, p, f, i, j) == Distance(r[..i], p[..j], f)
  {
    TraceAligns(r, p, f, i, j);
    DistanceIsLowerBound(Trace(r, p, f, i, j), r[..i], p[..j], f);
    SmallAlignmentAligns(r[..i], p[..j], f);
    DistIsLowerBound(SmallAlignment(r[..i], p[..j], f), r, p, f, i, j);
  }

  lemma DistOfLonger(r: seq<ReferenceTarget>, p: seq<PayloadTarget>, f: MatchFn, m: nat, n: nat, i: nat, j: nat)
    requires i <= m <= |r| && j <= n <= |p|
    ensures Dist(r, p, f, i, j) == Dist(r[..m], p[..n], f, i, j)
  {
    DistOfPrefixes(r, p, f, i, j);
    DistOfPrefixes(r[..m], p[..n], f, i, j);
    assert r[..m][..i] == r[..i] && p[..n][..j] == p[..j];
  }

  lemma CellOfLonger(r: seq<ReferenceTarget>, p: seq<PayloadTarget>, f: MatchFn, m: nat, n: nat, i: nat, j: nat)
    requires i <= m <= |r| && j <= n <= |p|
    ensures CellAt(r, p, f, i, j) == CellAt(r[..m], p[..n], f, i, j)
  {
    if i > 0 && j > 0 {
      DistOfLonger(r, p, f, m, n, i - 1, j - 1);
      DistOfLonger(r, p, f, m, n, i - 1, j);
      DistOfLonger(r, p, f, m, n, i, j - 1);
      assert r[..m][i - 1] == r[i - 1] && p[..n][j - 1] == p[j - 1];
    }
  }

  lemma EmittedOfLonger(r: seq<ReferenceTarget>, p: seq<PayloadTarget>, f: MatchFn, m: nat, n: nat, step: Step,
                        i: nat, j: nat)
    requires i <= m <= |r| && j <= n <= |p| && IsMove(r, p, f, step, i, j)
    ensures Emitted(r, p, step) == Emitted(r[..m], p[..n], step)
  {
  }

  /** The backtrace from a cell is what aligning the two prefixes alone gives. */
  lemma {:induction false} TraceOfLonger(r: seq<ReferenceTarget>, p: seq<PayloadTarget>, f: MatchFn, m: nat, n: nat,
                                         i: nat, j: nat)
    requires i <= m <= |r| && j <= n <= |p|
    ensures Trace(r, p, f, i, j) == Trace(r[..m], p[..n], f, i, j)
    decreases i + j
  {
    CellOfLonger(r, p, f, m, n, i, j);
    var step := CellAt(r, p, f, i, j).step;
    if step.Back? {
      StepIsMove(r, p, f, i, j);
      TraceOfLonger(r, p, f, m, n, step.ref, step.pay);
      EmittedOfLonger(r, p, f, m, n, step, i, j);
    }
  }

  lemma TraceOfPrefixes(r: seq<ReferenceTarget>, p: seq<PayloadTarget>, f: MatchFn, i: nat, j: nat)
    requires i <= |r| && j <= |p|
    ensures Trace(r, p, f, i, j) == SmallAlignment(r[..i], p[..j], f)
  {
    TraceOfLonger(r, p, f, i, j, i, j);
  }

  function ReferenceExtra(r: ReferenceTarget): Record {
    Extra(r.key, Reference, r.payload)
  }

  function PayloadExtra(p: PayloadTarget): Record {
    Extra(p.key, Payload, p.payload)
  }

  lemma DistancesOfInits(r: seq<ReferenceTarget>, p: seq<PayloadTarget>, f: MatchFn)
    requires |r| > 0 && |p| > 0
    ensures Dist(r, p, f, |r| - 1, |p| - 1) == Distance(Init(r), Init(p), f)
    ensures Dist(r, p, f, |r| - 1, |p|) == Distance(Init(r), p, f)
    ensures Dist(r, p, f, |r|, |p| - 1) == Distance(r, Init(p), f)
  {
    assert r[..|r|] == r && p[..|p|] == p;
    DistOfPrefixes(r, p, f, |r| - 1, |p| - 1);
    DistOfPrefixes(r, p, f, |r| - 1, |p|);
    DistOfPrefixes(r, p, f, |r|, |p| - 1);
  }

  /** Which neighbour a cell leads to, told from the distances. */
  lemma BestStepIs(isMatch: bool, diagonal: nat, above: nat, left: nat, i: nat, j: nat)
    requires i > 0 && j > 0 && diagonal <= above + 1 && diagonal <= left + 1
    ensures var c := BestStep(isMatch, diagonal, above, left, i, j);
            && c.step == (if isMatch then Back(MATCH, i - 1, j - 1)
                          else if diagonal + 2 == c.dist then Back(EXTRA_BOTH, i - 1, j - 1)
                          else if above + 1 == c.dist then Back(EXTRA_REFERENCE, i - 1, j)
                          else Back(EXTRA_PAYLOAD, i, j - 1))
            && (c.step.action == EXTRA_PAYLOAD ==> c.dist == left + 1)
  {
  }

  /** The last step of the backtrace. */
  lemma LastStep(r: seq<ReferenceTarget>, p: seq<PayloadTarget>, f: MatchFn)
    requires |r| > 0 && |p| > 0
    ensures var step, best := CellAt(r, p, f, |r|, |p|).step, Distance(r, p, f);
            step == if f(Last(r).key, Last(p).key) then Back(MATCH, |r| - 1, |p| - 1)
              else if Distance(Init(r), Init(p), f) + 2 == best then Back(EXTRA_BOTH, |r| - 1, |p| - 1)
              else if Distance(Init(r), p, f) + 1 == best then Back(EXTRA_REFERENCE, |r| - 1, |p|)
              else Back(EXTRA_PAYLOAD, |r|, |p| - 1)
    ensures CellAt(r, p, f, |r|, |p|).step.action == EXTRA_PAYLOAD ==> Distance(r, p, f) == Distance(r, Init(p), f) + 1
  {
    DistancesOfInits(r, p, f);
    DistDropsPayload(r, p, f, |r| - 1, |p| - 1);
    DistDropsReference(r, p, f, |r| - 1, |p| - 1);
    BestStepIs(f(Last(r).key, Last(p).key), Distance(Init(r), Init(p), f), Distance(Init(r), p, f),
               Distance(r, Init(p), f), |r|, |p|);
  }

  lemma TraceLastStep(r: seq<ReferenceTarget>, p: seq<PayloadTarget>, f: MatchFn, step: Step)
    requires step == CellAt(r, p, f, |r|, |p|).step && step.Back?
    ensures SmallAlignment(r, p, f) == SmallAlignment(r[..step.ref], p[..step.pay], f) + Emitted(r, p, step)
  {
    TraceOfPrefixes(r, p, f, step.ref, step.pay);
  }

  /** How the full-table aligner chooses among the best alignments. Last items that match are matched.
      Otherwise both are extras, the reference first, when that is among the best; if not, the reference item is,
      when that is; and if not, the payload item is. What comes before is chosen the same way. */
  lemma SmallAlignmentPrefers(r: seq<ReferenceTarget>, p: seq<PayloadTarget>, f: MatchFn)
    requires |r| > 0 && |p| > 0
    ensures var out, best := SmallAlignment(r, p, f), Distance(r, p, f);
            if f(Last(r).key, Last(p).key) then
              out == SmallAlignment(Init(r), Init(p), f) + [Match(Last(r).key, Last(p).payload, Last(r).payload)]
            else if Distance(Init(r), Init(p), f) + 2 == best then
              out == SmallAlignment(Init(r), Init(p), f) + [ReferenceExtra(Last(r)), PayloadExtra(Last(p))]
            else if Distance(Init(r), p, f) + 1 == best then
              out == SmallAlignment(Init(r), p, f) + [ReferenceExtra(Last(r))]
            else
              Distance(r, Init(p), f) + 1 == best && out == SmallAlignment(r, Init(p), f) + [PayloadExtra(Last(p))]
  {
    assert r[..|r|] == r && p[..|p|] == p;
    LastStep(r, p, f);
    TraceLastStep(r, p, f, CellAt(r, p, f, |r|, |p|).step);
  }

  /** One item less on either side costs at most one extra more. */
  lemma {:induction false} DistDropsPayload(r: seq<ReferenceTarget>, p: seq<PayloadTarget>, f: MatchFn, i: nat, j: nat)
    requires i <= |r| && j < |p|
    ensures Dist(r, p, f, i, j) <= Dist(r, p, f, i, j + 1) + 1
    decreases i
  {
    if i > 0 { DistDropsPayload(r, p, f, i - 1, j); }
  }

  lemma {:induction false} DistDropsReference(r: seq<ReferenceTarget>, p: seq<PayloadTarget>, f: MatchFn, i: nat,
                                              j: nat)
    requires i < |r| && j <= |p|
    ensures Dist(r, p, f, i, j) <= Dist(r, p, f, i + 1, j) + 1
    decreases j
  {
    if j > 0 { DistDropsReference(r, p, f, i, j - 1); }
  }

  /** Next to an empty side everything on the other is an extra. */
  lemma SmallAlignmentOfEmpty(r: seq<ReferenceTarget>, p: seq<PayloadTarget>, f: MatchFn)
    ensures |SmallAlignment(r, [], f)| == |r| && forall k :: 0 <= k < |r| ==>
              SmallAlignment(r, [], f)[k] == ReferenceExtra(r[k])
    ensures |SmallAlignment([], p, f)| == |p| && forall k :: 0 <= k < |p| ==>
              SmallAlignment([], p, f)[k] == PayloadExtra(p[k])
  {
    ColumnTrace(r, f, |r|);
    RowTrace(p, f, |p|);
  }

  lemma {:induction false} ColumnTrace(r: seq<ReferenceTarget>, f: MatchFn, i: nat)
    requires i <= |r|
    ensures |Trace(r, [], f, i, 0)| == i && forall k :: 0 <= k < i ==>
              Trace(r, [], f, i, 0)[k] == ReferenceExtra(r[k])
    decreases i
  {
    if i > 0 { ColumnTrace(r, f, i - 1); }
  }

  lemma {:induction false} RowTrace(p: seq<PayloadTarget>, f: MatchFn, j: nat)
    requires j <= |p|
    ensures |Trace([], p, f, 0, j)| == j && forall k :: 0 <= k < j ==> Trace([], p, f, 0, j)[k] == PayloadExtra(p[k])
    decreases j
  {
    if j > 0 { RowTrace(p, f, j - 1); }
  }

  /** Column 0, the rows before `i`, and the first `j` cells of row `i` hold their final entries. */
  ghost predicate Filled(dp: array2<Cell>, r: seq<ReferenceTarget>, p: seq<PayloadTarget>, f: MatchFn, i: nat, j: nat)
    requires dp.Length0 == |r| + 1 && dp.Length1 == |p| + 1
    reads dp
  {
    forall a, b :: 0 <= a <= |r| && 0 <= b <= |p| && (b == 0 || a < i || (a == i && b < j)) ==>
      dp[a, b] == CellAt(r, p, f, a, b)
  }

  lemma CellFromNeighbours(r: seq<ReferenceTarget>, p: seq<PayloadTarget>, f: MatchFn, i: nat, j: nat)
    requires 0 < i <= |r| && 0 < j <= |p|
    ensures var isMatch := f(r[i - 1].key, p[j - 1].key);
            var sub := CellAt(r, p, f, i - 1, j - 1).dist + Cost(isMatch);
            var del := CellAt(r, p, f, i - 1, j).dist + 1;
            var ins := CellAt(r, p, f, i, j - 1).dist + 1;
            CellAt(r, p, f, i, j) ==
            if sub <= del && sub <= ins then Cell(sub, Back(if isMatch then MATCH else EXTRA_BOTH, i - 1, j - 1))
            else if del <= sub && del <= ins then Cell(del, Back(EXTRA_REFERENCE, i - 1, j))
            else Cell(ins, Back(EXTRA_PAYLOAD, i, j - 1))
  {
  }

  method FillCell(dp: array2<Cell>, reference: seq<ReferenceTarget>, payload: seq<PayloadTarget>, matchFn: MatchFn,
                  i: nat, j: nat)
    requires dp.Length0 == |reference| + 1 && dp.Length1 == |payload| + 1 && 0 < i <= |reference| && 0 < j <= |payload|
    requires Filled(dp, reference, payload, matchFn, i, j)
    modifies dp
    ensures Filled(dp, reference, payload, matchFn, i, j + 1)
  {
    var isMatch := matchFn(reference[i - 1].key, payload[j - 1].key);
    var distSub := dp[i - 1, j - 1].dist + Cost(isMatch);
    var distDel := dp[i - 1, j].dist + 1;
    var distIns := dp[i, j - 1].dist + 1;
    CellFromNeighbours(reference, payload, matchFn, i, j);
    var cell;
    if distSub <= distDel && distSub <= distIns {
      var action := if isMatch then MATCH else EXTRA_BOTH;
      cell := Cell(distSub, Back(action, i - 1, j - 1));
    } else if distDel <= distSub && distDel <= distIns {
      cell := Cell(distDel, Back(EXTRA_REFERENCE, i - 1, j));
    } else {
      cell := Cell(distIns, Back(EXTRA_PAYLOAD, i, j - 1));
    }
    assert cell == CellAt(reference, payload, matchFn, i, j);
    dp[i, j] := cell;
  }

  method FillTable(reference: seq<ReferenceTarget>, payload: seq<PayloadTarget>, matchFn: MatchFn)
    returns (dp: array2<Cell>)
    ensures fresh(dp) && dp.Length0 == |reference| + 1 && dp.Length1 == |payload| + 1
    ensures Filled(dp, reference, payload, matchFn, |reference| + 1, 0)
  {
    var rows, cols := |reference| + 1, |payload| + 1;
    dp := new Cell[rows, cols]((_, _) => Cell(0, Start));
    for i := 1 to rows
      invariant forall a :: 0 <= a < i ==> dp[a, 0] == CellAt(reference, payload, matchFn, a, 0)
    {
      dp[i, 0] := Cell(i, Back(EXTRA_REFERENCE, i - 1, 0));
    }
    for j := 1 to cols
      invariant Filled(dp, reference, payload, matchFn, 0, j)
    {
      dp[0, j] := Cell(j, Back(EXTRA_PAYLOAD, 0, j - 1));
    }
    for i := 1 to rows
      invariant Filled(dp, reference, payload, matchFn, i, 0)
    {
      for j := 1 to cols
        invariant Filled(dp, reference, payload, matchFn, i, j)
      {
        FillCell(dp, reference, payload, matchFn, i, j);
      }
    }
  }

  /** The same records in the order the backtrace appends them. */
  function Appended(r: seq<ReferenceTarget>, p: seq<PayloadTarget>, step: Step): seq<Record>
    requires step.Back?
    requires step.action != EXTRA_PAYLOAD ==> step.ref < |r|
    requires step.action != EXTRA_REFERENCE ==> step.pay < |p|
  {
    match step.action
    case MATCH => [Match(r[step.ref].key, p[step.pay].payload, r[step.ref].payload)]
    case EXTRA_PAYLOAD => [Extra(p[step.pay].key, Payload, p[step.pay].payload)]
    case EXTRA_REFERENCE => [Extra(r[step.ref].key, Reference, r[step.ref].payload)]
    case EXTRA_BOTH => [Extra(p[step.pay].key, Payload, p[step.pay].payload),
                        Extra(r[step.ref].key, Reference, r[step.ref].payload)]
  }

  lemma ReverseAppended(r: seq<ReferenceTarget>, p: seq<PayloadTarget>, step: Step, output: seq<Record>)
    requires step.Back? && (step.action != EXTRA_PAYLOAD ==> step.ref < |r|) &&
             (step.action != EXTRA_REFERENCE ==> step.pay < |p|)
    ensures Reverse(output + Appended(r, p, step)) == Emitted(r, p, step) + Reverse(output)
  {
  }

  lemma BacktraceStep(r: seq<ReferenceTarget>, p: seq<PayloadTarget>, f: MatchFn, i: nat, j: nat, step: Step,
                      output: seq<Record>)
    requires i <= |r| && j <= |p| && step == CellAt(r, p, f, i, j).step && IsMove(r, p, f, step, i, j)
    ensures Trace(r, p, f, i, j) + Reverse(output) ==
            Trace(r, p, f, step.ref, step.pay) + Reverse(output + Appended(r, p, step))
  {
    ReverseAppended(r, p, step, output);
    TraceOfStep(r, p, f, i, j, step);
    Associate(Trace(r, p, f, step.ref, step.pay), Emitted(r, p, step), Reverse(output));
  }

  lemma TraceOfStep(r: seq<ReferenceTarget>, p: seq<PayloadTarget>, f: MatchFn, i: nat, j: nat, step: Step)
    requires i <= |r| && j <= |p| && step == CellAt(r, p, f, i, j).step && IsMove(r, p, f, step, i, j)
    ensures Trace(r, p, f, i, j) == Trace(r, p, f, step.ref, step.pay) + Emitted(r, p, step)
  {
  }

  lemma Associate<T>(a: seq<T>, b: seq<T>, c: seq<T>)
    ensures a + b + c == a + (b + c)
  {
  }

  /** The backtrace stands at (i, j), where `step` leads on, and has appended `output`. */
  ghost predicate Tracing(r: seq<ReferenceTarget>, p: seq<PayloadTarget>, f: MatchFn, i: nat, j: nat, step: Step,
                          output: seq<Record>)
  {
    && i <= |r| && j <= |p| && step == CellAt(r, p, f, i, j).step
    && Trace(r, p, f, i, j) + Reverse(output) == SmallAlignment(r, p, f)
  }

  lemma TracingStep(r: seq<ReferenceTarget>, p: seq<PayloadTarget>, f: MatchFn, i: nat, j: nat, step: Step,
                    output: seq<Record>)
    requires Tracing(r, p, f, i, j, step, output) && step.Back?
    ensures IsMove(r, p, f, step, i, j)
    ensures Tracing(r, p, f, step.ref, step.pay, CellAt(r, p, f, step.ref, step.pay).step,
                    output + Appended(r, p, step))
  {
    StepIsMove(r, p, f, i, j);
    BacktraceStep(r, p, f, i, j, step, output);
  }

  /** The records of one step, appended last first. */
  method AppendStep(output: seq<Record>, reference: seq<ReferenceTarget>, payload: seq<PayloadTarget>, step: Step)
    returns (out: seq<Record>)
    requires step.Back? && (step.action != EXTRA_PAYLOAD ==> step.ref < |reference|) &&
             (step.action != EXTRA_REFERENCE ==> step.pay < |payload|)
    ensures out == output + Appended(reference, payload, step)
  {
    out := output;
    if step.action == MATCH {
      out := out + [Match(reference[step.ref].key, payload[step.pay].payload, reference[step.ref].payload)];
    }
    if step.action in {EXTRA_BOTH, EXTRA_PAYLOAD} {
      out := out + [Extra(payload[step.pay].key, Payload, payload[step.pay].payload)];
    }
    if step.action in {EXTRA_BOTH, EXTRA_REFERENCE} {
      out := out + [Extra(reference[step.ref].key, Reference, reference[step.ref].payload)];
    }
  }

  method AlignSmall(reference: seq<ReferenceTarget>, payload: seq<PayloadTarget>, matchFn: MatchFn)
    returns (result: seq<Record>)
    ensures result == SmallAlignment(reference, payload, matchFn)
  {
    var dp := FillTable(reference, payload, matchFn);
    var output: seq<Record> := [];
    var i, j := |reference|, |payload|;
    var step := dp[i, j].step;
    while step.Back?
      invariant Filled(dp, reference, payload, matchFn, |reference| + 1, 0)
      invariant Tracing(reference, payload, matchFn, i, j, step, output)
      decreases i + j
    {
      TracingStep(reference, payload, matchFn, i, j, step, output);
      output := AppendStep(output, reference, payload, step);
      i, j := step.ref, step.pay;
      step := dp[i, j].step;
    }
    result := Reverse(output);
  }

  // ----- The rolling row, and the split it finds

  ghost predicate IsRow(row: seq<nat>, r: seq<ReferenceTarget>, p: seq<PayloadTarget>, f: MatchFn, i: nat, n: nat)
    requires i <= |r| && n <= |p| + 1
  {
    |row| == n && forall j :: 0 <= j < n ==> row[j] == Dist(r, p, f, i, j)
  }

  lemma RowGrows(prev: seq<nat>, cur: seq<nat>, r: seq<ReferenceTarget>, p: seq<PayloadTarget>, f: MatchFn, i: nat,
                 j: nat)
    requires i < |r| && j < |p| && IsRow(prev, r, p, f, i, |p| + 1) && IsRow(cur, r, p, f, i + 1, j + 1)
    ensures IsRow(cur + [Min3(prev[j] + Cost(f(r[i].key, p[j].key)), prev[j + 1] + 1, cur[j] + 1)], r, p, f, i + 1,
                  j + 2)
  {
    assert prev[j] == Dist(r, p, f, i, j) && prev[j + 1] == Dist(r, p, f, i, j + 1) &&
           cur[j] == Dist(r, p, f, i + 1, j);
  }

  lemma RowHoldsDistances(row: seq<nat>, r: seq<ReferenceTarget>, p: seq<PayloadTarget>, f: MatchFn)
    requires IsRow(row, r, p, f, |r|, |p| + 1)
    ensures forall j :: 0 <= j <= |p| ==> row[j] == Distance(r, p[..j], f)
  {
    forall j | 0 <= j <= |p|
      ensures row[j] == Distance(r, p[..j], f)
    {
      DistOfPrefixes(r, p, f, |r|, j);
      assert r[..|r|] == r;
    }
  }

  method RowCosts(reference: seq<ReferenceTarget>, payload: seq<PayloadTarget>, matchFn: MatchFn)
    returns (prev: seq<nat>)
    ensures |prev| == |payload| + 1
    ensures forall j :: 0 <= j <= |payload| ==> prev[j] == Distance(reference, payload[..j], matchFn)
  {
    prev := seq(|payload| + 1, j => j);
    for i := 0 to |reference|
      invariant IsRow(prev, reference, payload, matchFn, i, |payload| + 1)
    {
      var cur: seq<nat> := [i + 1];
      for j := 0 to |payload|
        invariant IsRow(cur, reference, payload, matchFn, i + 1, j + 1)
      {
        var isMatch := matchFn(reference[i].key, payload[j].key);
        var subCost := prev[j] + Cost(isMatch);
        var delCost := prev[j + 1] + 1;
        var insCost := cur[j] + 1;
        RowGrows(prev, cur, reference, payload, matchFn, i, j);
        cur := cur + [Min3(subCost, delCost, insCost)];
      }
      prev := cur;
    }
    RowHoldsDistances(prev, reference, payload, matchFn);
  }

  /** Reversing both sides does not change the distance. */
  lemma DistReverse(r: seq<ReferenceTarget>, p: seq<PayloadTarget>, f: MatchFn)
    ensures Distance(Reverse(r), Reverse(p), f) == Distance(r, p, f)
  {
    DistReverseAtMost(r, p, f);
    DistReverseAtMost(Reverse(r), Reverse(p), f);
    assert Reverse(Reverse(r)) == r && Reverse(Reverse(p)) == p;
  }

  lemma DistReverseAtMost(r: seq<ReferenceTarget>, p: seq<PayloadTarget>, f: MatchFn)
    ensures Distance(Reverse(r), Reverse(p), f) <= Distance(r, p, f)
  {
    SmallAlignmentAligns(r, p, f);
    AlignmentReverse(SmallAlignment(r, p, f), r, p, f);
    DistanceIsLowerBound(Reverse(SmallAlignment(r, p, f)), Reverse(r), Reverse(p), f);
  }

  function SplitCost(left: seq<ReferenceTarget>, right: seq<ReferenceTarget>, p: seq<PayloadTarget>, f: MatchFn,
                     k: nat): nat
    requires k <= |p|
  {
    Distance(left, p[..k], f) + Distance(right, p[k..], f)
  }

  /** The first of the payload positions below `n` with the least split cost. */
  function BestSplit(left: seq<ReferenceTarget>, right: seq<ReferenceTarget>, p: seq<PayloadTarget>, f: MatchFn,
                     n: nat): (k: nat)
    requires 0 < n <= |p| + 1
    ensures k < n
  {
    if n == 1 then 0
    else
      var k := BestSplit(left, right, p, f, n - 1);
      if SplitCost(left, right, p, f, n - 1) < SplitCost(left, right, p, f, k) then n - 1 else k
  }

  /** Position `k` is the first below `n` with the least split cost. */
  ghost predicate IsFirstLeast(left: seq<ReferenceTarget>, right: seq<ReferenceTarget>, p: seq<PayloadTarget>,
                               f: MatchFn, n: nat, k: nat)
    requires n <= |p| + 1
  {
    && k < n
    && (forall j :: 0 <= j < n ==> SplitCost(left, right, p, f, k) <= SplitCost(left, right, p, f, j))
    && (forall j :: 0 <= j < k ==> SplitCost(left, right, p, f, k) < SplitCost(left, right, p, f, j))
  }

  lemma {:induction false} BestSplitIsFirstLeast(left: seq<ReferenceTarget>, right: seq<ReferenceTarget>,
                                                 p: seq<PayloadTarget>, f: MatchFn, n: nat)
    requires 0 < n <= |p| + 1
    ensures IsFirstLeast(left, right, p, f, n, BestSplit(left, right, p, f, n))
    decreases n
  {
    if n > 1 { BestSplitIsFirstLeast(left, right, p, f, n - 1); }
  }

  /** No split of the payload beats the whole problem, and some split attains it. */
  lemma SplitAttainsDist(left: seq<ReferenceTarget>, right: seq<ReferenceTarget>, p: seq<PayloadTarget>, f: MatchFn)
    ensures forall k :: 0 <= k <= |p| ==> Distance(left + right, p, f) <= SplitCost(left, right, p, f, k)
    ensures SplitCost(left, right, p, f, BestSplit(left, right, p, f, |p| + 1)) == Distance(left + right, p, f)
  {
    forall k | 0 <= k <= |p|
      ensures Distance(left + right, p, f) <= SplitCost(left, right, p, f, k)
    {
      SplitCostAtLeastDist(left, right, p, f, k);
    }
    BestSplitIsFirstLeast(left, right, p, f, |p| + 1);
    var k := SomeSplitAttainsDist(left, right, p, f);
  }

  lemma SplitCostAtLeastDist(left: seq<ReferenceTarget>, right: seq<ReferenceTarget>, p: seq<PayloadTarget>,
                             f: MatchFn, k: nat)
    requires k <= |p|
    ensures Distance(left + right, p, f) <= SplitCost(left, right, p, f, k)
  {
    var a, b := SmallAlignment(left, p[..k], f), SmallAlignment(right, p[k..], f);
    SmallAlignmentAligns(left, p[..k], f);
    SmallAlignmentAligns(right, p[k..], f);
    AlignmentConcat(a, left, p[..k], b, right, p[k..], f);
    assert p[..k] + p[k..] == p;
    DistanceIsLowerBound(a + b, left + right, p, f);
  }

  lemma SomeSplitAttainsDist(left: seq<ReferenceTarget>, right: seq<ReferenceTarget>, p: seq<PayloadTarget>, f: MatchFn)
    returns (k: nat)
    ensures k <= |p| && SplitCost(left, right, p, f, k) <= Distance(left + right, p, f)
  {
    var out := SmallAlignment(left + right, p, f);
    SmallAlignmentAligns(left + right, p, f);
    var n, cut := AlignmentCut(out, left + right, p, f, |left|);
    k := cut;
    assert (left + right)[..|left|] == left && (left + right)[|left|..] == right;
    DistanceIsLowerBound(out[..n], left, p[..k], f);
    DistanceIsLowerBound(out[n..], right, p[k..], f);
  }

  // ----- Divide and conquer

  /** `_hirschberg`: what the divide-and-conquer aligner returns. */
  function Hirschberg(r: seq<ReferenceTarget>, p: seq<PayloadTarget>, f: MatchFn, smallCutoff: int): seq<Record>
    decreases |r|
  {
    if |r| == 0 then seq(|p|, i requires 0 <= i < |p| => Extra(p[i].key, Payload, p[i].payload))
    else if |p| == 0 then seq(|r|, i requires 0 <= i < |r| => Extra(r[i].key, Reference, r[i].payload))
    else if |r| <= 1 || |p| <= 1 || |r| * |p| <= smallCutoff then SmallAlignment(r, p, f)
    else
      var mid := |r| / 2;
      var k := BestSplit(r[..mid], r[mid..], p, f, |p| + 1);
      Hirschberg(r[..mid], p[..k], f, smallCutoff) + Hirschberg(r[mid..], p[k..], f, smallCutoff)
  }

  lemma ScoresAddUp(scoreLeft: seq<nat>, scoreRight: seq<nat>, left: seq<ReferenceTarget>, right: seq<ReferenceTarget>,
                    p: seq<PayloadTarget>, f: MatchFn, k: nat)
    requires k <= |p| && |scoreLeft| == |scoreRight| == |p| + 1
    requires forall j :: 0 <= j <= |p| ==> scoreLeft[j] == Distance(left, p[..j], f)
    requires forall j :: 0 <= j <= |p| ==> scoreRight[j] == Distance(Reverse(right), Reverse(p)[..j], f)
    ensures scoreLeft[k] + scoreRight[|p| - k] == SplitCost(left, right, p, f, k)
  {
    SuffixCost(right, p, f, k);
    assert scoreRight[|p| - k] == Distance(Reverse(right), Reverse(p)[..|p| - k], f);
  }

  /** `split` is the best of the first `n` payload positions and `best` its cost; -1 before the first. */
  ghost predicate IsBest(left: seq<ReferenceTarget>, right: seq<ReferenceTarget>, p: seq<PayloadTarget>, f: MatchFn,
                         n: nat, split: nat, best: int)
  {
    n <= |p| + 1 &&
    if n == 0 then best == -1
    else split == BestSplit(left, right, p, f, n) && best == SplitCost(left, right, p, f, split)
  }

  lemma BestNext(left: seq<ReferenceTarget>, right: seq<ReferenceTarget>, p: seq<PayloadTarget>, f: MatchFn,
                 n: nat, split: nat, best: int)
    requires n <= |p| && IsBest(left, right, p, f, n, split, best)
    ensures var cost := SplitCost(left, right, p, f, n);
            if best == -1 || cost < best then IsBest(left, right, p, f, n + 1, n, cost)
            else IsBest(left, right, p, f, n + 1, split, best)
  {
  }

  /** The two rows, one read from its far end, add up to the split costs. */
  ghost predicate AreScores(scoreLeft: seq<nat>, scoreRight: seq<nat>, left: seq<ReferenceTarget>,
                            right: seq<ReferenceTarget>, p: seq<PayloadTarget>, f: MatchFn)
  {
    && |scoreLeft| == |scoreRight| == |p| + 1
    && forall k :: 0 <= k <= |p| ==> scoreLeft[k] + scoreRight[|p| - k] == SplitCost(left, right, p, f, k)
  }

  method LeastSum(scoreLeft: seq<nat>, scoreRight: seq<nat>, payloadLen: nat, ghost left: seq<ReferenceTarget>,
                  ghost right: seq<ReferenceTarget>, ghost p: seq<PayloadTarget>, ghost f: MatchFn)
    returns (split: nat)
    requires payloadLen == |p| && AreScores(scoreLeft, scoreRight, left, right, p, f)
    ensures split == BestSplit(left, right, p, f, |p| + 1)
  {
    split := 0;
    var best: int := -1;   // not set yet
    for k := 0 to payloadLen + 1
      invariant IsBest(left, right, p, f, k, split, best)
    {
      var cost := scoreLeft[k] + scoreRight[payloadLen - k];
      assert cost == SplitCost(left, right, p, f, k);
      BestNext(left, right, p, f, k, split, best);
      if best == -1 || cost < best {
        best, split := cost, k;
      }
    }
  }

  method FindSplit(leftRef: seq<ReferenceTarget>, rightRef: seq<ReferenceTarget>, payload: seq<PayloadTarget>,
                   matchFn: MatchFn)
    returns (split: nat)
    ensures split == BestSplit(leftRef, rightRef, payload, matchFn, |payload| + 1)
    ensures IsFirstLeast(leftRef, rightRef, payload, matchFn, |payload| + 1, split)
  {
    var scoreLeft := RowCosts(leftRef, payload, matchFn);
    var scoreRight := RowCosts(Reverse(rightRef), Reverse(payload), matchFn);
    forall k | 0 <= k <= |payload|
      ensures scoreLeft[k] + scoreRight[|payload| - k] == SplitCost(leftRef, rightRef, payload, matchFn, k)
    {
      ScoresAddUp(scoreLeft, scoreRight, leftRef, rightRef, payload, matchFn, k);
    }
    split := LeastSum(scoreLeft, scoreRight, |payload|, leftRef, rightRef, payload, matchFn);
    BestSplitIsFirstLeast(leftRef, rightRef, payload, matchFn, |payload| + 1);
  }

  method HirschbergAlign(reference: seq<ReferenceTarget>, payload: seq<PayloadTarget>, matchFn: MatchFn,
                         smallCutoff: int)
    returns (result: seq<Record>)
    ensures result == Hirschberg(reference, payload, matchFn, smallCutoff)
    decreases |reference|
  {
    if |reference| == 0 {
      return seq(|payload|, i requires 0 <= i < |payload| => Extra(payload[i].key, Payload, payload[i].payload));
    }
    if |payload| == 0 {
      return seq(|reference|, i requires 0 <= i < |reference| => Extra(reference[i].key, Reference,
        reference[i].payload));
    }
    if |reference| <= 1 || |payload| <= 1 || |reference| * |payload| <= smallCutoff {
      result := AlignSmall(reference, payload, matchFn);
      return;
    }
    var mid := |reference| / 2;
    var leftRef, rightRef := reference[..mid], reference[mid..];
    var split := FindSplit(leftRef, rightRef, payload, matchFn);
    var leftAlignment := HirschbergAlign(leftRef, payload[..split], matchFn, smallCutoff);
    var rightAlignment := HirschbergAlign(rightRef, payload[split..], matchFn, smallCutoff);
    result := leftAlignment + rightAlignment;
  }

  /** The row of the reversed problem, read from its far end, holds the suffix distances. */
  lemma SuffixCost(right: seq<ReferenceTarget>, p: seq<PayloadTarget>, f: MatchFn, k: nat)
    requires k <= |p|
    ensures Distance(Reverse(right), Reverse(p)[..|p| - k], f) == Distance(right, p[k..], f)
  {
    assert Reverse(p)[..|p| - k] == Reverse(p[k..]);
    DistReverse(right, p[k..], f);
  }

  lemma Rejoin<T>(s: seq<T>, k: nat)
    requires k <= |s|
    ensures s[..k] + s[k..] == s
  {
  }

  /** Optimal alignments of the two halves, with the payload split at its best position, are one of the whole. */
  lemma DividedAligns(r: seq<ReferenceTarget>, p: seq<PayloadTarget>, f: MatchFn, mid: nat, a: seq<Record>,
                      b: seq<Record>)
    requires mid <= |r|
    requires var k := BestSplit(r[..mid], r[mid..], p, f, |p| + 1);
             && Aligns(a, r[..mid], p[..k], f) && Extras(a) == Distance(r[..mid], p[..k], f)
             && Aligns(b, r[mid..], p[k..], f) && Extras(b) == Distance(r[mid..], p[k..], f)
    ensures Aligns(a + b, r, p, f) && Extras(a + b) == Distance(r, p, f)
  {
    var k := BestSplit(r[..mid], r[mid..], p, f, |p| + 1);
    AlignmentConcat(a, r[..mid], p[..k], b, r[mid..], p[k..], f);
    SplitAttainsDist(r[..mid], r[mid..], p, f);
    Rejoin(r, mid);
    Rejoin(p, k);
  }

  lemma {:induction false} HirschbergAligns(r: seq<ReferenceTarget>, p: seq<PayloadTarget>, f: MatchFn,
                                            smallCutoff: int)
    ensures Aligns(Hirschberg(r, p, f, smallCutoff), r, p, f)
    ensures Extras(Hirschberg(r, p, f, smallCutoff)) == Distance(r, p, f)
    decreases |r|
  {
    if |r| <= 1 || |p| <= 1 || |r| * |p| <= smallCutoff {
      var _ := HirschbergDivides(r, p, f, smallCutoff);
      SmallAlignmentAligns(r, p, f);
    } else {
      var mid := |r| / 2;
      var k := BestSplit(r[..mid], r[mid..], p, f, |p| + 1);
      HirschbergAligns(r[..mid], p[..k], f, smallCutoff);
      HirschbergAligns(r[mid..], p[k..], f, smallCutoff);
      DividedAligns(r, p, f, mid, Hirschberg(r[..mid], p[..k], f, smallCutoff),
                    Hirschberg(r[mid..], p[k..], f, smallCutoff));
    }
  }

  lemma HalfCostIsSplitCost(r: seq<ReferenceTarget>, p: seq<PayloadTarget>, f: MatchFn, k: nat)
    requires k <= |p|
    ensures HalfCost(r, p, f, k) == SplitCost(r[..|r| / 2], r[|r| / 2..], p, f, k)
  {
  }

  /** When the divide-and-conquer aligner divides, and where: above the cutoff, with two items or more on each side,
      the reference in half and the payload at the first position at which the two distances have the least sum. */
  lemma HirschbergDivides(r: seq<ReferenceTarget>, p: seq<PayloadTarget>, f: MatchFn, smallCutoff: int)
    returns (k: nat)
    ensures |r| <= 1 || |p| <= 1 || |r| * |p| <= smallCutoff ==>
              Hirschberg(r, p, f, smallCutoff) == SmallAlignment(r, p, f)
    ensures |r| > 1 && |p| > 1 && |r| * |p| > smallCutoff ==>
              k <= |p| && IsHalfSplit(r, p, f, k) &&
              Hirschberg(r, p, f, smallCutoff) ==
                Hirschberg(r[..|r| / 2], p[..k], f, smallCutoff) + Hirschberg(r[|r| / 2..], p[k..], f, smallCutoff)
  {
    k := 0;
    if |r| == 0 || |p| == 0 {
      SmallAlignmentOfEmpty(r, p, f);
    } else if |r| > 1 && |p| > 1 && |r| * |p| > smallCutoff {
      k := BestSplit(r[..|r| / 2], r[|r| / 2..], p, f, |p| + 1);
      BestSplitIsFirstLeast(r[..|r| / 2], r[|r| / 2..], p, f, |p| + 1);
      forall l: nat | l <= |p|
        ensures HalfCost(r, p, f, k) <= HalfCost(r, p, f, l) && (l < k ==> HalfCost(r, p, f, k) < HalfCost(r, p, f, l))
      {
        HalfCostIsSplitCost(r, p, f, k);
        HalfCostIsSplitCost(r, p, f, l);
      }
    }
  }

  /** What aligning the two halves of the reference with the two parts of the payload costs. */
  function HalfCost(r: seq<ReferenceTarget>, p: seq<PayloadTarget>, f: MatchFn, k: nat): nat
    requires k <= |p|
  {
    Distance(r[..|r| / 2], p[..k], f) + Distance(r[|r| / 2..], p[k..], f)
  }

  ghost predicate IsHalfSplit(r: seq<ReferenceTarget>, p: seq<PayloadTarget>, f: MatchFn, k: nat) {
    k <= |p| && forall l: nat :: l <= |p| ==>
      HalfCost(r, p, f, k) <= HalfCost(r, p, f, l) && (l < k ==> HalfCost(r, p, f, k) < HalfCost(r, p, f, l))
  }

  /** The divide-and-conquer aligner is optimal among ALL alignments, for every match relation and
      every cutoff, and exactly as good as the full-table one. */
  lemma {:induction false} HirschbergOptimal(r: seq<ReferenceTarget>, p: seq<PayloadTarget>, f: MatchFn,
                                             smallCutoff: int)
    ensures var out := Hirschberg(r, p, f, smallCutoff);
            && Aligns(out, r, p, f)
            && (forall other :: Aligns(other, r, p, f) ==>
                Extras(out) <= Extras(other) && Matches(other) <= Matches(out))
            && Extras(out) == Extras(SmallAlignment(r, p, f)) && Matches(out) == Matches(SmallAlignment(r, p, f))
  {
    var out, small := Hirschberg(r, p, f, smallCutoff), SmallAlignment(r, p, f);
    HirschbergAligns(r, p, f, smallCutoff);
    SmallAlignmentAligns(r, p, f);
    AlignmentCounts(out, r, p, f);
    AlignmentCounts(small, r, p, f);
    forall other | Aligns(other, r, p, f)
      ensures Extras(out) <= Extras(other) && Matches(other) <= Matches(out)
    {
      DistanceIsLowerBound(other, r, p, f);
      AlignmentCounts(other, r, p, f);
    }
  }

  /** Both aligners give back both inputs in order, metadata included. */
  lemma AlignersConserve(r: seq<ReferenceTarget>, p: seq<PayloadTarget>, f: MatchFn, smallCutoff: int)
    ensures ReferenceSide(Hirschberg(r, p, f, smallCutoff)) == r == ReferenceSide(SmallAlignment(r, p, f))
    ensures PayloadSide(Hirschberg(r, p, f, smallCutoff)) == Metas(p) == PayloadSide(SmallAlignment(r, p, f))
  {
    HirschbergAligns(r, p, f, smallCutoff);
    SmallAlignmentAligns(r, p, f);
    AlignmentConserves(Hirschberg(r, p, f, smallCutoff), r, p, f);
    AlignmentConserves(SmallAlignment(r, p, f), r, p, f);
  }

  // ----- The longest order-preserving matching

  /** Index pairs, increasing on both sides, whose keys match. */
  ghost predicate IsMatching(m: seq<(nat, nat)>, r: seq<ReferenceTarget>, p: seq<PayloadTarget>, f: MatchFn) {
    && (forall i :: 0 <= i < |m| ==> m[i].0 < |r| && m[i].1 < |p| && f(r[m[i].0].key, p[m[i].1].key))
    && (forall i, j :: 0 <= i < j < |m| ==> m[i].0 < m[j].0 && m[i].1 < m[j].1)
  }

  lemma {:induction false} MatchingHasAlignment(m: seq<(nat, nat)>, r: seq<ReferenceTarget>, p: seq<PayloadTarget>,
                                                f: MatchFn)
    returns (out: seq<Record>)
    requires IsMatching(m, r, p, f)
    ensures Aligns(out, r, p, f) && Matches(out) == |m|
    decreases |r| + |p|
  {
    if |r| > 0 && (|m| == 0 || Last(m).0 < |r| - 1) {
      var o := MatchingHasAlignment(m, Init(r), p, f);
      out := o + [Extra(Last(r).key, Reference, Last(r).payload)];
      assert Init(out) == o;
    } else if |p| > 0 && (|m| == 0 || Last(m).1 < |p| - 1) {
      var o := MatchingHasAlignment(m, r, Init(p), f);
      out := o + [Extra(Last(p).key, Payload, Last(p).payload)];
      assert Init(out) == o;
    } else if |m| > 0 {
      var o := MatchingHasAlignment(Init(m), Init(r), Init(p), f);
      out := o + [Match(Last(r).key, Last(p).payload, Last(r).payload)];
      assert Init(out) == o;
    } else {
      out := [];
    }
  }

  lemma {:induction false} AlignmentHasMatching(out: seq<Record>, r: seq<ReferenceTarget>, p: seq<PayloadTarget>,
                                                f: MatchFn)
    returns (m: seq<(nat, nat)>)
    requires Aligns(out, r, p, f)
    ensures IsMatching(m, r, p, f) && |m| == Matches(out)
    decreases |out|
  {
    if |out| == 0 {
      m := [];
    } else {
      match Last(out)
      case Match(_, _, _) =>
        m := AlignmentHasMatching(Init(out), Init(r), Init(p), f);
        m := m + [(|r| - 1, |p| - 1)];
      case Extra(_, Payload, _) => m := AlignmentHasMatching(Init(out), r, Init(p), f);
      case Extra(_, Reference, _) => m := AlignmentHasMatching(Init(out), Init(r), p, f);
    }
  }

  /** The `Match` records are a longest order-preserving matching of the keys. */
  lemma HirschbergFindsLongestMatching(r: seq<ReferenceTarget>, p: seq<PayloadTarget>, f: MatchFn, smallCutoff: int)
    ensures exists m :: IsMatching(m, r, p, f) && |m| == Matches(Hirschberg(r, p, f, smallCutoff))
    ensures forall m :: IsMatching(m, r, p, f) ==> |m| <= Matches(Hirschberg(r, p, f, smallCutoff))
  {
    var out := Hirschberg(r, p, f, smallCutoff);
    HirschbergOptimal(r, p, f, smallCutoff);
    var _ := AlignmentHasMatching(out, r, p, f);
    forall m | IsMatching(m, r, p, f)
      ensures |m| <= Matches(out)
    {
      var _ := MatchingHasAlignment(m, r, p, f);
    }
  }
}
