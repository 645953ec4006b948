/**
 Overlapping-window classification of token sequences: one sequence window by window, and many
 sequences in length-sorted, padded, packed forward passes. Both compute the same labels for a
 model that scores each row of a padded batch independently.
 */
module BertWindows {
  import opened Options
  import opened StableSort

  type Logits = seq<real>

  /** Token ids of a word sequence, without special tokens, and the word each token belongs to. */
  datatype Encoding = Encoding(ids: seq<int>, wordIds: seq<Option<nat>>)

  datatype Model = Model(
    tokenize: seq<string> -> Encoding,
    forward: (seq<seq<int>>, seq<seq<bool>>) -> seq<seq<Logits>>,
    maxPositions: int,
    classCount: nat,
    clsId: int,
    sepId: int,
    padId: int)

  const INNER_TOKENS := 480
  const OVERLAP_TOKENS := 96

  function Trues(n: nat): seq<bool> {
    seq(n, _ => true)
  }

  /** The logits of one unpadded window, one row a token. */
  function Score(m: Model, ids: seq<int>): seq<Logits>
    requires Shaped(m)
  {
    m.forward([ids], [Trues(|ids|)])[0]
  }

  /** A batch row: the window first and unmasked, padding after it and masked. */
  ghost predicate IsPadded(m: Model, row: seq<int>, mask: seq<bool>, ids: seq<int>) {
    && |ids| <= |row| == |mask| && row[..|ids|] == ids
    && (forall k :: |ids| <= k < |row| ==> row[k] == m.padId)
    && (forall k :: 0 <= k < |mask| ==> (mask[k] <==> k < |ids|))
  }

  ghost predicate Shaped(m: Model) {
    && m.maxPositions > 2 && m.classCount > 0
    && (forall rows, masks :: |m.forward(rows, masks)| == |rows|)
    && (forall rows, masks, r :: 0 <= r < |rows| ==> |m.forward(rows, masks)[r]| == |rows[r]|)
    && (forall rows, masks, r, k :: 0 <= r < |rows| && 0 <= k < |rows[r]| ==>
        |m.forward(rows, masks)[r][k]| == m.classCount)
    && (forall words :: |m.tokenize(words).wordIds| == |m.tokenize(words).ids|)
    && (forall words, t :: 0 <= t < |m.tokenize(words).wordIds| && m.tokenize(words).wordIds[t].Some? ==>
          m.tokenize(words).wordIds[t].value < |words|)
  }

  /** What a row scores does not depend on its padding or on the other rows. */
  ghost predicate RowsIndependent(m: Model)
    requires Shaped(m)
  {
    forall rows, masks, r, ids :: 0 <= r < |rows| == |masks| && IsPadded(m, rows[r], masks[r], ids) ==>
      m.forward(rows, masks)[r][..|ids|] == Score(m, ids)
  }

  // ----- Windows

  function Min(a: int, b: int): int {
    if a <= b then a else b
  }

  function InnerWindow(m: Model): int {
    Min(INNER_TOKENS, m.maxPositions - 2)
  }

  function Stride(m: Model): int {
    if InnerWindow(m) <= OVERLAP_TOKENS then InnerWindow(m) else InnerWindow(m) - OVERLAP_TOKENS
  }

  /** `ids` are the window's tokens between the two special ones. */
  datatype Window = Window(sequence: nat, start: nat, end: nat, ids: seq<int>)
  {
    function Length(): nat { |ids| }
  }

  function WindowAt(m: Model, sequence: nat, ids: seq<int>, start: nat): (w: Window)
    requires Shaped(m) && start <= |ids|
    ensures w.sequence == sequence && w.start == start <= w.end <= |ids| && |w.ids| == w.end - w.start + 2
  {
    var end := Min(start + InnerWindow(m), |ids|);
    Window(sequence, start, end, [m.clsId] + ids[start..end] + [m.sepId])
  }

  /** The windows of one sequence from `start` on. */
  function WindowsFrom(m: Model, sequence: nat, ids: seq<int>, start: nat): seq<Window>
    requires Shaped(m) && start <= |ids|
    decreases |ids| - start
  {
    var w := WindowAt(m, sequence, ids, start);
    if w.end >= |ids| then [w] else [w] + WindowsFrom(m, sequence, ids, start + Stride(m))
  }

  ghost predicate FitsModel(m: Model, ids: seq<int>, w: Window) {
    w.start <= w.end <= |ids| && w.ids == [m.clsId] + ids[w.start..w.end] + [m.sepId] && |w.ids| <= m.maxPositions
  }

  /** Every window is a slice that fits the model, and every token from `start` on is in one. */
  lemma {:induction false} WindowsCover(m: Model, sequence: nat, ids: seq<int>, start: nat)
    requires Shaped(m) && start <= |ids|
    ensures forall w :: w in WindowsFrom(m, sequence, ids, start) ==>
            w.sequence == sequence && start <= w.start && FitsModel(m, ids, w)
    ensures forall t :: start <= t < |ids| ==> Count(WindowsFrom(m, sequence, ids, start), sequence, t) > 0
    decreases |ids| - start
  {
    var w := WindowAt(m, sequence, ids, start);
    var ws := WindowsFrom(m, sequence, ids, start);
    if w.end >= |ids| {
      assert ws[1..] == [];
    } else {
      var next := start + Stride(m);
      WindowsCover(m, sequence, ids, next);
      assert ws[1..] == WindowsFrom(m, sequence, ids, next);
      forall t | start <= t < |ids|
        ensures Count(ws, sequence, t) > 0
      {
        if t >= next { assert Count(ws[1..], sequence, t) > 0; }
      }
    }
  }

  /** The windows that cover a sequence from `start` on: each takes `inner` tokens between the two special
      ones, the last what is left; the next starts 96 tokens before the end of the one before it, or at its
      end when `inner` is no more than 96. */
  ghost predicate Overlapping(m: Model, sequence: nat, ids: seq<int>, start: nat, inner: int, ws: seq<Window>) {
    && |ws| > 0 && ws[0].start == start && ws[|ws| - 1].end == |ids|
    && (forall i :: 0 <= i < |ws| ==> IsCut(m, sequence, ids, ws[i]) && ws[i].end - ws[i].start <= inner)
    && (forall i :: 0 <= i < |ws| - 1 ==> Steps(ws[i], ws[i + 1], inner) && ws[i].end < |ids|)
  }

  ghost predicate IsCut(m: Model, sequence: nat, ids: seq<int>, w: Window) {
    w.sequence == sequence && w.start <= w.end <= |ids| && w.ids == [m.clsId] + ids[w.start..w.end] + [m.sepId]
  }

  predicate Steps(w: Window, next: Window, inner: int) {
    w.end == w.start + inner && next.start == if inner > 96 then w.end - 96 else w.end
  }

  lemma OverlappingCons(m: Model, sequence: nat, ids: seq<int>, start: nat, inner: int, w: Window, ws: seq<Window>)
    requires Overlapping(m, sequence, ids, start, inner, ws)
    requires IsCut(m, sequence, ids, w) && w.end < |ids| && w.end - w.start <= inner && Steps(w, ws[0], inner)
    ensures Overlapping(m, sequence, ids, w.start, inner, [w] + ws)
  {
    var all := [w] + ws;
    assert all[|all| - 1] == ws[|ws| - 1];
    forall i | 0 <= i < |all|
      ensures IsCut(m, sequence, ids, all[i]) && all[i].end - all[i].start <= inner
    {
      if i > 0 { assert all[i] == ws[i - 1]; }
    }
    forall i | 0 <= i < |all| - 1
      ensures Steps(all[i], all[i + 1], inner) && all[i].end < |ids|
    {
      if i > 0 { assert all[i] == ws[i - 1] && all[i + 1] == ws[i]; }
    }
  }

  lemma {:induction false} WindowsOverlapFrom(m: Model, sequence: nat, ids: seq<int>, start: nat)
    requires Shaped(m) && start <= |ids|
    ensures Overlapping(m, sequence, ids, start, if m.maxPositions - 2 < 480 then m.maxPositions - 2 else 480,
                        WindowsFrom(m, sequence, ids, start))
    decreases |ids| - start
  {
    var w := WindowAt(m, sequence, ids, start);
    if w.end < |ids| {
      var inner := if m.maxPositions - 2 < 480 then m.maxPositions - 2 else 480;
      var rest := WindowsFrom(m, sequence, ids, start + Stride(m));
      WindowsOverlapFrom(m, sequence, ids, start + Stride(m));
      OverlappingCons(m, sequence, ids, start + Stride(m), inner, w, rest);
    }
  }

  /** Every window of a sequence but the last holds 480 tokens, or as many as the model takes besides the two
      special ones when that is fewer; the next one starts 96 tokens before its end when it holds more than
      that, and at its end otherwise. In the first case any 97 tokens in a row are together in one window. */
  lemma WindowsOverlap(m: Model, sequence: nat, ids: seq<int>)
    requires Shaped(m)
    ensures var ws := WindowsFrom(m, sequence, ids, 0);
            var inner := if m.maxPositions - 2 < 480 then m.maxPositions - 2 else 480;
            && Overlapping(m, sequence, ids, 0, inner, ws)
            && (inner > 96 ==> forall t: nat :: t + 97 <= |ids| ==> Together(ws, t, 97))
  {
    var ws := WindowsFrom(m, sequence, ids, 0);
    var inner := if m.maxPositions - 2 < 480 then m.maxPositions - 2 else 480;
    WindowsOverlapFrom(m, sequence, ids, 0);
    if inner > 96 {
      forall t: nat | t + 97 <= |ids|
        ensures Together(ws, t, 97)
      {
        TogetherFrom(m, sequence, ids, inner, ws, t, 0);
      }
    }
  }

  /** The `n` tokens from `t` on are in one window. */
  ghost predicate Together(ws: seq<Window>, t: nat, n: nat) {
    exists i :: 0 <= i < |ws| && ws[i].start <= t && t + n <= ws[i].end
  }

  lemma {:induction false} TogetherFrom(m: Model, sequence: nat, ids: seq<int>, inner: int, ws: seq<Window>, t: nat,
                                        i: nat)
    requires Overlapping(m, sequence, ids, 0, inner, ws) && inner > 96 && t + 97 <= |ids|
    requires i < |ws| && ws[i].start <= t
    ensures Together(ws, t, 97)
    decreases |ws| - i
  {
    if ws[i].end < t + 97 {
      assert Steps(ws[i], ws[i + 1], inner);
      TogetherFrom(m, sequence, ids, inner, ws, t, i + 1);
    }
  }

  // ----- Sums over windows

  function Contribution(m: Model, w: Window, s: nat, t: nat, c: nat): real
    requires Shaped(m) && c < m.classCount && |w.ids| == w.end - w.start + 2
  {
    if w.sequence == s && w.start <= t < w.end then Score(m, w.ids)[1 + t - w.start][c] else 0.0
  }

  ghost predicate WellFormed(ws: seq<Window>) {
    forall w :: w in ws ==> w.start <= w.end && |w.ids| == w.end - w.start + 2
  }

  /** The accumulated logit of class `c` at token `t` of sequence `s`. */
  function Sum(m: Model, ws: seq<Window>, s: nat, t: nat, c: nat): real
    requires Shaped(m) && c < m.classCount && WellFormed(ws)
  {
    if |ws| == 0 then 0.0 else Contribution(m, ws[0], s, t, c) + Sum(m, ws[1..], s, t, c)
  }

  function Count(ws: seq<Window>, s: nat, t: nat): nat {
    if |ws| == 0 then 0
    else
      (if ws[0].sequence == s && ws[0].start <= t < ws[0].end then 1 else 0) + Count(ws[1..], s, t)
  }

  lemma {:induction false} SumConcat(m: Model, a: seq<Window>, b: seq<Window>, s: nat, t: nat, c: nat)
    requires Shaped(m) && c < m.classCount && WellFormed(a) && WellFormed(b)
    ensures WellFormed(a + b)
    ensures Sum(m, a + b, s, t, c) == Sum(m, a, s, t, c) + Sum(m, b, s, t, c)
    ensures Count(a + b, s, t) == Count(a, s, t) + Count(b, s, t)
    decreases |a|
  {
    if |a| == 0 {
      assert a + b == b;
    } else {
      SumConcat(m, a[1..], b, s, t, c);
      assert (a + b)[1..] == a[1..] + b;
    }
  }

  /** A window adds, at each of its tokens, what the model scores there when it is run on the window alone,
      and nothing anywhere else. */
  lemma OneWindow(m: Model, w: Window, s: nat, t: nat, c: nat)
    requires Shaped(m) && c < m.classCount && w.start <= w.end && |w.ids| == w.end - w.start + 2
    ensures WellFormed([w])
    ensures var mask := seq(|w.ids|, _ => true);
            Sum(m, [w], s, t, c) == if w.sequence == s && w.start <= t < w.end
              then m.forward([w.ids], [mask])[0][t - w.start + 1][c] else 0.0
    ensures Count([w], s, t) == if w.sequence == s && w.start <= t < w.end then 1 else 0
  {
    assert [w][1..] == [];
    assert Trues(|w.ids|) == seq(|w.ids|, _ => true);
  }

  lemma SumCons(m: Model, w: Window, ws: seq<Window>, s: nat, t: nat, c: nat)
    requires Shaped(m) && c < m.classCount && WellFormed(ws) && w.start <= w.end && |w.ids| == w.end - w.start + 2
    ensures WellFormed([w] + ws) && Sum(m, [w] + ws, s, t, c) == Contribution(m, w, s, t, c) + Sum(m, ws, s, t, c)
    ensures Count([w] + ws, s, t) == (if w.sequence == s && w.start <= t < w.end then 1 else 0) + Count(ws, s, t)
  {
    assert ([w] + ws)[1..] == ws;
  }

  /** The first entry of one list, found in a rearrangement of it. */
  lemma FindHead<T>(a: seq<T>, b: seq<T>) returns (i: nat)
    requires |a| > 0 && multiset(a) == multiset(b)
    ensures i < |b| && b[i] == a[0] && multiset(a[1..]) == multiset(b[..i] + b[i + 1..])
  {
    assert a == [a[0]] + a[1..];
    assert a[0] in multiset(b);
    i :| 0 <= i < |b| && b[i] == a[0];
    assert b == b[..i] + [b[i]] + b[i + 1..];
    assert multiset(a[1..]) == multiset(a) - multiset{a[0]};
    assert multiset(b[..i] + b[i + 1..]) == multiset(b) - multiset{b[i]};
  }

  /** Exact sums do not depend on the order of the windows. */
  lemma {:induction false} SumPermutation(m: Model, a: seq<Window>, b: seq<Window>, s: nat, t: nat, c: nat)
    requires Shaped(m) && c < m.classCount && WellFormed(a) && WellFormed(b) && multiset(a) == multiset(b)
    ensures Sum(m, a, s, t, c) == Sum(m, b, s, t, c)
    ensures Count(a, s, t) == Count(b, s, t)
    decreases |a|
  {
    if |a| == 0 {
      assert |multiset(b)| == 0;
    } else {
      var i := FindHead(a, b);
      SumWithout(m, b, i, s, t, c);
      SumPermutation(m, a[1..], b[..i] + b[i + 1..], s, t, c);
    }
  }

  lemma SumWithout(m: Model, b: seq<Window>, i: nat, s: nat, t: nat, c: nat)
    requires Shaped(m) && c < m.classCount && WellFormed(b) && i < |b|
    ensures var rest := b[..i] + b[i + 1..];
            && WellFormed(rest)
            && Sum(m, b, s, t, c) == Contribution(m, b[i], s, t, c) + Sum(m, rest, s, t, c)
            && Count(b, s, t) == (if b[i].sequence == s && b[i].start <= t < b[i].end then 1 else 0) + Count(rest, s, t)
  {
    assert b == b[..i] + ([b[i]] + b[i + 1..]);
    SumCons(m, b[i], b[i + 1..], s, t, c);
    SumConcat(m, b[..i], [b[i]] + b[i + 1..], s, t, c);
    SumConcat(m, b[..i], b[i + 1..], s, t, c);
  }

  // ----- Labels

  /** `k` holds the first largest value of `v`. */
  ghost predicate IsArgMax(v: seq<real>, k: nat) {
    k < |v| && (forall j :: 0 <= j < |v| ==> v[j] <= v[k]) && (forall j :: 0 <= j < k ==> v[j] < v[k])
  }

  /** The first class with the largest value. */
  function ArgMax(v: seq<real>): (k: nat)
    requires |v| > 0
    ensures IsArgMax(v, k)
  {
    if |v| == 1 then 0
    else
      var k := ArgMax(v[..|v| - 1]);
      assert forall j :: 0 <= j < |v| - 1 ==> v[j] == v[..|v| - 1][j];
      if v[|v| - 1] > v[k] then |v| - 1 else k
  }

  function Scale(v: seq<real>, n: nat): seq<real>
    requires n > 0
  {
    seq(|v|, c requires 0 <= c < |v| => v[c] / (n as real))
  }

  /** The first class with the largest total; dividing every total by one count changes nothing. */
  ghost predicate IsBestClass(m: Model, ws: seq<Window>, s: nat, t: nat, k: nat)
    requires Shaped(m) && WellFormed(ws)
  {
    k < m.classCount
    && (forall c :: 0 <= c < m.classCount ==> Sum(m, ws, s, t, c) <= Sum(m, ws, s, t, k))
    && (forall c :: 0 <= c < k ==> Sum(m, ws, s, t, c) < Sum(m, ws, s, t, k))
  }

  lemma MeanOrder(x: real, y: real, n: nat)
    requires n > 0
    ensures x / (n as real) <= y / (n as real) <==> x <= y
  {
  }

  /** The label of token `t` by its mean logits. */
  function LabelOf(m: Model, ws: seq<Window>, s: nat, t: nat): (k: nat)
    requires Shaped(m) && WellFormed(ws) && Count(ws, s, t) > 0
    ensures k < m.classCount
  {
    ArgMax(Scale(Totals(m, ws, s, t), Count(ws, s, t)))
  }

  function Totals(m: Model, ws: seq<Window>, s: nat, t: nat): seq<real>
    requires Shaped(m) && WellFormed(ws)
  {
    seq(m.classCount, c requires 0 <= c < m.classCount => Sum(m, ws, s, t, c))
  }

  lemma ScaledOrder(v: seq<real>, w: seq<real>, n: nat, i: nat, j: nat)
    requires n > 0 && i < |v| && j < |v| && w == Scale(v, n)
    ensures w[i] <= w[j] <==> v[i] <= v[j]
  {
    MeanOrder(v[i], v[j], n);
  }

  lemma ScalingKeepsArgMax(v: seq<real>, w: seq<real>, n: nat, k: nat)
    requires n > 0 && w == Scale(v, n) && IsArgMax(w, k)
    ensures IsArgMax(v, k)
  {
    forall j | 0 <= j < |v|
      ensures v[j] <= v[k] && (j < k ==> v[j] < v[k])
    {
      ScaledOrder(v, w, n, j, k);
      ScaledOrder(v, w, n, k, j);
    }
  }

  lemma LabelIsBest(m: Model, ws: seq<Window>, s: nat, t: nat)
    requires Shaped(m) && WellFormed(ws) && Count(ws, s, t) > 0
    ensures IsBestClass(m, ws, s, t, LabelOf(m, ws, s, t))
  {
    var totals, n := Totals(m, ws, s, t), Count(ws, s, t);
    ScalingKeepsArgMax(totals, Scale(totals, n), n, LabelOf(m, ws, s, t));
    assert forall c :: 0 <= c < m.classCount ==> totals[c] == Sum(m, ws, s, t, c);
  }

  /** The label of each token: the class with the largest mean logit over the windows it is in. */
  function TokenLabels(m: Model, ids: seq<int>): (labels: seq<nat>)
    requires Shaped(m)
    ensures |labels| == |ids| && forall t :: 0 <= t < |ids| ==> labels[t] < m.classCount
  {
    WindowsCover(m, 0, ids, 0);
    var ws := WindowsFrom(m, 0, ids, 0);
    seq(|ids|, t requires 0 <= t < |ids| => LabelOf(m, ws, 0, t))
  }

  /** Every token of a sequence is labelled with the first class of largest total over its windows. */
  lemma TokenLabelsAreBest(m: Model, ids: seq<int>, t: nat)
    requires Shaped(m) && t < |ids|
    ensures WellFormed(WindowsFrom(m, 0, ids, 0)) &&
            IsBestClass(m, WindowsFrom(m, 0, ids, 0), 0, t, TokenLabels(m, ids)[t])
  {
    WindowsCover(m, 0, ids, 0);
    LabelIsBest(m, WindowsFrom(m, 0, ids, 0), 0, t);
  }

  /** The word of the last token before `n` that belongs to a word. */
  function PreviousWord(wordIds: seq<Option<nat>>, n: nat): Option<nat>
    requires n <= |wordIds|
  {
    if n == 0 then None else if wordIds[n - 1].Some? then wordIds[n - 1] else PreviousWord(wordIds, n - 1)
  }

  /** Token `t` starts a word: it belongs to one, and not to that of the token before. */
  predicate StartsWord(wordIds: seq<Option<nat>>, t: nat)
    requires t < |wordIds|
  {
    wordIds[t].Some? && PreviousWord(wordIds, t) != wordIds[t]
  }

  /** The label of the last of the first `n` tokens that starts word `w`, or 0. */
  function WordLabel(wordIds: seq<Option<nat>>, labels: seq<nat>, w: nat, n: nat): nat
    requires n <= |wordIds| == |labels|
  {
    if n == 0 then 0
    else if StartsWord(wordIds, n - 1) && wordIds[n - 1].value == w then labels[n - 1]
    else WordLabel(wordIds, labels, w, n - 1)
  }

  function WordLabels(wordIds: seq<Option<nat>>, labels: seq<nat>, wordCount: nat): seq<nat>
    requires |wordIds| == |labels|
  {
    seq(wordCount, w requires 0 <= w < wordCount => WordLabel(wordIds, labels, w, |wordIds|))
  }

  /** When the tokens come in word order, each word gets the label of its first token. */
  lemma {:induction false} FirstTokenDecides(wordIds: seq<Option<nat>>, labels: seq<nat>, w: nat, t: nat, n: nat)
    requires t < n <= |wordIds| == |labels|
    requires forall i, j :: 0 <= i < j < |wordIds| && wordIds[i].Some? && wordIds[j].Some? ==>
             wordIds[i].value <= wordIds[j].value
    requires wordIds[t] == Some(w) && forall i :: 0 <= i < t ==> wordIds[i] != Some(w)
    ensures WordLabel(wordIds, labels, w, n) == labels[t]
    decreases n
  {
    if t < n - 1 {
      if wordIds[n - 1] == Some(w) { SameWordBetween(wordIds, w, t, n - 1); }
      FirstTokenDecides(wordIds, labels, w, t, n - 1);
    } else {
      PreviousIsEarlier(wordIds, t);
    }
  }

  lemma {:induction false} SameWordBetween(wordIds: seq<Option<nat>>, w: nat, t: nat, n: nat)
    requires t < n < |wordIds|
    requires forall i, j :: 0 <= i < j < |wordIds| && wordIds[i].Some? && wordIds[j].Some? ==>
             wordIds[i].value <= wordIds[j].value
    requires wordIds[t] == Some(w) == wordIds[n]
    ensures PreviousWord(wordIds, n) == Some(w)
  {
    var k := n - 1;
    while wordIds[k].None?
      invariant t <= k < n && PreviousWord(wordIds, n) == PreviousWord(wordIds, k + 1)
      decreases k
    {
      k := k - 1;
    }
  }

  lemma {:induction false} PreviousIsEarlier(wordIds: seq<Option<nat>>, n: nat)
    requires n <= |wordIds|
    ensures PreviousWord(wordIds, n).Some? ==> exists i :: 0 <= i < n && wordIds[i] == PreviousWord(wordIds, n)
    decreases n
  {
    if n > 0 && wordIds[n - 1].None? { PreviousIsEarlier(wordIds, n - 1); }
  }

  /** The label of each word of one sequence: the specification of both predictors. */
  function RawActions(m: Model, words: seq<string>): (actions: seq<nat>)
    requires Shaped(m)
    ensures |actions| == |words|
  {
    var e := m.tokenize(words);
    WordLabels(e.wordIds, TokenLabels(m, e.ids), |words|)
  }

  /** Token `t` belongs to word `w`, and the token before it that belongs to any word does not. */
  ghost predicate Opens(wordIds: seq<Option<nat>>, t: nat, w: nat) {
    t < |wordIds| && wordIds[t] == Some(w) && !Continues(wordIds, t, w)
  }

  /** Of the tokens before `n` that belong to a word, the last one belongs to `w`. */
  ghost predicate Continues(wordIds: seq<Option<nat>>, n: nat, w: nat)
    requires n <= |wordIds|
  {
    exists i :: 0 <= i < n && wordIds[i] == Some(w) && forall j :: i < j < n ==> wordIds[j] == None
  }

  lemma {:induction false} PreviousIs(wordIds: seq<Option<nat>>, n: nat, w: nat)
    requires n <= |wordIds|
    ensures PreviousWord(wordIds, n) == Some(w) <==> Continues(wordIds, n, w)
    decreases n
  {
    if n > 0 && wordIds[n - 1].None? {
      PreviousIs(wordIds, n - 1, w);
      if Continues(wordIds, n - 1, w) {
        var i :| 0 <= i < n - 1 && wordIds[i] == Some(w) && forall j :: i < j < n - 1 ==> wordIds[j] == None;
        assert forall j :: i < j < n ==> wordIds[j] == None;
      }
    }
  }

  lemma OpensIsStart(wordIds: seq<Option<nat>>, t: nat, w: nat)
    requires t < |wordIds|
    ensures Opens(wordIds, t, w) <==> StartsWord(wordIds, t) && wordIds[t] == Some(w)
  {
    PreviousIs(wordIds, t, w);
  }

  /** Token `t` opens `w`, and no later one does. */
  ghost predicate OpensLast(wordIds: seq<Option<nat>>, t: nat, w: nat) {
    Opens(wordIds, t, w) && forall u :: t < u < |wordIds| ==> !Opens(wordIds, u, w)
  }

  ghost predicate NoneOpens(wordIds: seq<Option<nat>>, w: nat, n: nat) {
    forall t :: 0 <= t < n ==> !Opens(wordIds, t, w)
  }

  lemma {:induction false} UnopenedWord(wordIds: seq<Option<nat>>, labels: seq<nat>, w: nat, n: nat)
    requires n <= |wordIds| == |labels| && NoneOpens(wordIds, w, n)
    ensures WordLabel(wordIds, labels, w, n) == 0
    decreases n
  {
    if n > 0 {
      OpensIsStart(wordIds, n - 1, w);
      UnopenedWord(wordIds, labels, w, n - 1);
    }
  }

  lemma {:induction false} OpenedWord(wordIds: seq<Option<nat>>, labels: seq<nat>, w: nat, t: nat, n: nat)
    requires t < n <= |wordIds| == |labels| && OpensLast(wordIds, t, w)
    ensures WordLabel(wordIds, labels, w, n) == labels[t]
    decreases n
  {
    OpensIsStart(wordIds, n - 1, w);
    if t < n - 1 { OpenedWord(wordIds, labels, w, t, n - 1); }
  }

  /** A word that no token opens gets 0; any other gets the first class of largest total of the last token
      that opens it. */
  lemma WordsAreLabelled(m: Model, words: seq<string>, w: nat)
    requires Shaped(m) && w < |words|
    ensures var e := m.tokenize(words);
            var ws := WindowsFrom(m, 0, e.ids, 0);
            && WellFormed(ws)
            && (NoneOpens(e.wordIds, w, |e.ids|) ==> RawActions(m, words)[w] == 0)
            && (forall t :: OpensLast(e.wordIds, t, w) ==> IsBestClass(m, ws, 0, t, RawActions(m, words)[w]))
  {
    var e := m.tokenize(words);
    WindowsCover(m, 0, e.ids, 0);
    if NoneOpens(e.wordIds, w, |e.ids|) { UnopenedWord(e.wordIds, TokenLabels(m, e.ids), w, |e.ids|); }
    forall t | OpensLast(e.wordIds, t, w)
      ensures IsBestClass(m, WindowsFrom(m, 0, e.ids, 0), 0, t, RawActions(m, words)[w])
    {
      OpenedWord(e.wordIds, TokenLabels(m, e.ids), w, t, |e.ids|);
      TokenLabelsAreBest(m, e.ids, t);
    }
  }

  method CollectWordActions(wordIds: seq<Option<nat>>, labels: seq<nat>, wordCount: nat) returns (actions: seq<nat>)
    requires |wordIds| == |labels|
    requires forall t :: 0 <= t < |wordIds| && wordIds[t].Some? ==> wordIds[t].value < wordCount
    ensures actions == WordLabels(wordIds, labels, wordCount)
  {
    actions := seq(wordCount, _ => 0);
    var previous: Option<nat> := None;
    for t := 0 to |wordIds|
      invariant |actions| == wordCount && previous == PreviousWord(wordIds, t)
      invariant forall w :: 0 <= w < wordCount ==> actions[w] == WordLabel(wordIds, labels, w, t)
    {
      var word := wordIds[t];
      if word.None? || word == previous {
        continue;
      }
      previous := word;
      actions := actions[word.value := labels[t]];
    }
  }

  // ----- Accumulation

  function AddAt(acc: seq<Logits>, start: nat, rows: seq<Logits>): (r: seq<Logits>)
    requires start + |rows| <= |acc|
    requires forall k :: 0 <= k < |rows| ==> |rows[k]| == |acc[start + k]|
    ensures |r| == |acc| && forall t :: 0 <= t < |acc| ==> |r[t]| == |acc[t]|
  {
    seq(|acc|, t requires 0 <= t < |acc| =>
      if start <= t < start + |rows| then seq(|acc[t]|, c requires 0 <= c < |acc[t]| => acc[t][c] + rows[t - start][c])
        else acc[t])
  }

  function CountAt(counts: seq<nat>, start: nat, end: nat): seq<nat> {
    seq(|counts|, t requires 0 <= t < |counts| => counts[t] + if start <= t < end then 1 else 0)
  }

  /** The accumulators of sequence `s`, of `n` tokens, after the windows `ws`. */
  ghost predicate Accumulated(m: Model, acc: seq<Logits>, counts: seq<nat>, ws: seq<Window>, s: nat, n: nat)
    requires Shaped(m)
  {
    && WellFormed(ws) && |acc| == |counts| == n
    && (forall t :: 0 <= t < n ==> |acc[t]| == m.classCount && counts[t] == Count(ws, s, t))
    && (forall t, c :: 0 <= t < n && 0 <= c < m.classCount ==> acc[t][c] == Sum(m, ws, s, t, c))
  }

  lemma SumSnoc(m: Model, ws: seq<Window>, w: Window, s: nat, t: nat, c: nat)
    requires Shaped(m) && c < m.classCount && WellFormed(ws) && w.start <= w.end && |w.ids| == w.end - w.start + 2
    ensures WellFormed(ws + [w]) && Sum(m, ws + [w], s, t, c) == Sum(m, ws, s, t, c) + Contribution(m, w, s, t, c)
    ensures Count(ws + [w], s, t) == Count(ws, s, t) + if w.sequence == s && w.start <= t < w.end then 1 else 0
  {
    SumConcat(m, ws, [w], s, t, c);
    assert [w][1..] == [];
  }

  lemma AddedAt(acc: seq<Logits>, start: nat, rows: seq<Logits>, t: nat, c: nat)
    requires start + |rows| <= |acc| && forall k :: 0 <= k < |rows| ==> |rows[k]| == |acc[start + k]|
    requires t < |acc| && c < |acc[t]|
    ensures AddAt(acc, start, rows)[t][c] == acc[t][c] + if start <= t < start + |rows| then rows[t - start][c] else 0.0
  {
  }

  lemma OwnContribution(m: Model, w: Window, logits: seq<Logits>, t: nat, c: nat)
    requires Shaped(m) && c < m.classCount && w.start <= w.end && |w.ids| == w.end - w.start + 2
    requires logits == Score(m, w.ids)[1..w.end - w.start + 1]
    ensures |logits| == w.end - w.start && forall k :: 0 <= k < |logits| ==> |logits[k]| == m.classCount
    ensures Contribution(m, w, w.sequence, t, c) == if w.start <= t < w.start + |logits| then logits[t - w.start][c]
            else 0.0
  {
    assert forall k :: 0 <= k < |logits| ==> logits[k] == Score(m, w.ids)[1 + k];
  }

  /** Adding the logits of a window adds its contribution, at every token and class. */
  lemma AddedSum(m: Model, acc: seq<Logits>, ws: seq<Window>, w: Window, logits: seq<Logits>, t: nat, c: nat)
    requires Shaped(m) && WellFormed(ws) && c < m.classCount
    requires w.start <= w.end && |w.ids| == w.end - w.start + 2 && logits == Score(m, w.ids)[1..w.end - w.start + 1]
    requires w.start + |logits| <= |acc| && forall k :: 0 <= k < |logits| ==> |logits[k]| == |acc[w.start + k]|
    requires t < |acc| && |acc[t]| == m.classCount && acc[t][c] == Sum(m, ws, w.sequence, t, c)
    ensures WellFormed(ws + [w]) && AddAt(acc, w.start, logits)[t][c] == Sum(m, ws + [w], w.sequence, t, c)
  {
    AddedAt(acc, w.start, logits, t, c);
    OwnContribution(m, w, logits, t, c);
    SumSnoc(m, ws, w, w.sequence, t, c);
  }

  lemma AddedCount(m: Model, acc: seq<Logits>, counts: seq<nat>, ws: seq<Window>, w: Window, n: nat, t: nat)
    requires Shaped(m) && Accumulated(m, acc, counts, ws, w.sequence, n) && t < n
    requires w.start <= w.end <= n && |w.ids| == w.end - w.start + 2
    ensures CountAt(counts, w.start, w.end)[t] == Count(ws + [w], w.sequence, t)
  {
    SumSnoc(m, ws, w, w.sequence, t, 0);
  }

  lemma AccumulateOwn(m: Model, acc: seq<Logits>, counts: seq<nat>, ws: seq<Window>, w: Window, n: nat,
                      logits: seq<Logits>)
    requires Shaped(m) && Accumulated(m, acc, counts, ws, w.sequence, n)
    requires w.start <= w.end <= n && |w.ids| == w.end - w.start + 2
    requires logits == Score(m, w.ids)[1..w.end - w.start + 1]
    ensures w.start + |logits| <= |acc| && forall k :: 0 <= k < |logits| ==> |logits[k]| == |acc[w.start + k]|
    ensures Accumulated(m, AddAt(acc, w.start, logits), CountAt(counts, w.start, w.end), ws + [w], w.sequence, n)
  {
    OwnContribution(m, w, logits, 0, 0);
    var acc', counts' := AddAt(acc, w.start, logits), CountAt(counts, w.start, w.end);
    forall t, c | 0 <= t < n && 0 <= c < m.classCount
      ensures acc'[t][c] == Sum(m, ws + [w], w.sequence, t, c)
    {
      AddedSum(m, acc, ws, w, logits, t, c);
    }
    forall t | 0 <= t < n
      ensures counts'[t] == Count(ws + [w], w.sequence, t)
    {
      AddedCount(m, acc, counts, ws, w, n, t);
    }
  }

  lemma AccumulateOther(m: Model, acc: seq<Logits>, counts: seq<nat>, ws: seq<Window>, w: Window, s: nat, n: nat)
    requires Shaped(m) && Accumulated(m, acc, counts, ws, s, n)
    requires w.sequence != s && w.start <= w.end && |w.ids| == w.end - w.start + 2
    ensures Accumulated(m, acc, counts, ws + [w], s, n)
  {
    forall t, c | 0 <= t < n && 0 <= c < m.classCount
      ensures acc[t][c] == Sum(m, ws + [w], s, t, c) && counts[t] == Count(ws + [w], s, t)
    {
      SumSnoc(m, ws, w, s, t, c);
    }
    forall t | 0 <= t < n
      ensures counts[t] == Count(ws + [w], s, t)
    {
      SumSnoc(m, ws, w, s, t, 0);
    }
  }

  function MeanLabels(acc: seq<Logits>, counts: seq<nat>): seq<nat>
    requires |acc| == |counts| && forall t :: 0 <= t < |acc| ==> |acc[t]| > 0 && counts[t] > 0
  {
    seq(|acc|, t requires 0 <= t < |acc| => ArgMax(Scale(acc[t], counts[t])))
  }

  lemma {:induction false} MeanLabelsAreTokenLabels(m: Model, acc: seq<Logits>, counts: seq<nat>, ids: seq<int>)
    requires Shaped(m) && Accumulated(m, acc, counts, WindowsFrom(m, 0, ids, 0), 0, |ids|)
    ensures forall t :: 0 <= t < |acc| ==> counts[t] > 0
    ensures MeanLabels(acc, counts) == TokenLabels(m, ids)
  {
    var ws := WindowsFrom(m, 0, ids, 0);
    WindowsCover(m, 0, ids, 0);
    forall t | 0 <= t < |ids|
      ensures ArgMax(Scale(acc[t], counts[t])) == LabelOf(m, ws, 0, t)
    {
      assert acc[t] == Totals(m, ws, 0, t);
    }
  }

  // ----- One sequence

  function ZeroLogits(n: nat, classCount: nat): seq<Logits> {
    seq(n, _ => seq(classCount, _ => 0.0))
  }

  function ZeroCounts(n: nat): seq<nat> {
    seq(n, _ => 0)
  }

  lemma NothingAccumulated(m: Model, s: nat, n: nat)
    requires Shaped(m)
    ensures Accumulated(m, ZeroLogits(n, m.classCount), ZeroCounts(n), [], s, n)
  {
  }

  /** The logits of the window's own tokens, without those of the two special ones. */
  function InnerLogits(m: Model, ids: seq<int>, start: nat, end: nat): (rows: seq<Logits>)
    requires Shaped(m) && start <= end <= |ids|
    ensures |rows| == end - start && forall k :: 0 <= k < |rows| ==> |rows[k]| == m.classCount
  {
    var windowIds := [m.clsId] + ids[start..end] + [m.sepId];
    m.forward([windowIds], [Trues(|windowIds|)])[0][1..end - start + 1]
  }

  lemma InnerIsScore(m: Model, ids: seq<int>, start: nat)
    requires Shaped(m) && start <= |ids|
    ensures var w := WindowAt(m, 0, ids, start);
            InnerLogits(m, ids, start, w.end) == Score(m, w.ids)[1..w.end - start + 1]
  {
  }

  lemma AccumulateStep(m: Model, ids: seq<int>, acc: seq<Logits>, counts: seq<nat>, ws: seq<Window>, start: nat)
    requires Shaped(m) && start <= |ids| && Accumulated(m, acc, counts, ws, 0, |ids|)
    ensures var w := WindowAt(m, 0, ids, start);
            var logits := InnerLogits(m, ids, start, w.end);
            start + |logits| <= |acc| && (forall k :: 0 <= k < |logits| ==> |logits[k]| == |acc[start + k]|) &&
            Accumulated(m, AddAt(acc, start, logits), CountAt(counts, start, w.end), ws + [w], 0, |ids|)
  {
    var w := WindowAt(m, 0, ids, start);
    InnerIsScore(m, ids, start);
    AccumulateOwn(m, acc, counts, ws, w, |ids|, InnerLogits(m, ids, start, w.end));
  }

  /** `ws` are the windows of one sequence before `start`, or all of them once everything is covered. */
  ghost predicate CutUpTo(m: Model, sequence: nat, ids: seq<int>, ws: seq<Window>, start: nat, covered: bool)
    requires Shaped(m)
  {
    start <= |ids| && WindowsFrom(m, sequence, ids, 0) == ws +
      if covered then [] else WindowsFrom(m, sequence, ids, start)
  }

  lemma NextWindow(m: Model, sequence: nat, ids: seq<int>, ws: seq<Window>, start: nat)
    requires Shaped(m) && CutUpTo(m, sequence, ids, ws, start, false)
    ensures var w := WindowAt(m, sequence, ids, start);
            if w.end >= |ids| then CutUpTo(m, sequence, ids, ws + [w], start, true)
            else start + Stride(m) <= |ids| && CutUpTo(m, sequence, ids, ws + [w], start + Stride(m), false)
  {
    var w := WindowAt(m, sequence, ids, start);
    if w.end < |ids| { Regroup(ws, w, WindowsFrom(m, sequence, ids, start + Stride(m))); }
  }

  lemma Regroup<T>(a: seq<T>, x: T, b: seq<T>)
    ensures a + ([x] + b) == a + [x] + b
  {
  }

  lemma CutFromStart(m: Model, sequence: nat, ids: seq<int>)
    requires Shaped(m)
    ensures CutUpTo(m, sequence, ids, [], 0, false)
  {
  }

  lemma CutWholly(m: Model, sequence: nat, ids: seq<int>, ws: seq<Window>, start: nat)
    requires Shaped(m) && CutUpTo(m, sequence, ids, ws, start, true)
    ensures ws == WindowsFrom(m, sequence, ids, 0)
  {
    assert ws + [] == ws;
  }

  /** One window: its logits added in; then on by the stride, or done. */
  method AccumulateNext(m: Model, ids: seq<int>, start0: nat, acc0: seq<Logits>, counts0: seq<nat>,
                        ghost ws0: seq<Window>)
    returns (acc: seq<Logits>, counts: seq<nat>, start: nat, covered: bool, ghost ws: seq<Window>)
    requires Shaped(m) && CutUpTo(m, 0, ids, ws0, start0, false) && Accumulated(m, acc0, counts0, ws0, 0, |ids|)
    ensures CutUpTo(m, 0, ids, ws, start, covered) && Accumulated(m, acc, counts, ws, 0, |ids|)
    ensures covered || start0 < start <= |ids|
  {
    var end := Min(start0 + InnerWindow(m), |ids|);
    var logits := InnerLogits(m, ids, start0, end);
    AccumulateStep(m, ids, acc0, counts0, ws0, start0);
    NextWindow(m, 0, ids, ws0, start0);
    acc := AddAt(acc0, start0, logits);
    counts := CountAt(counts0, start0, end);
    ws := ws0 + [WindowAt(m, 0, ids, start0)];
    if end >= |ids| {
      start, covered := start0, true;
    } else {
      start, covered := start0 + Stride(m), false;
    }
  }

  method AccumulateWindows(m: Model, ids: seq<int>) returns (accumulated: seq<Logits>, counts: seq<nat>)
    requires Shaped(m)
    ensures Accumulated(m, accumulated, counts, WindowsFrom(m, 0, ids, 0), 0, |ids|)
  {
    var tokenCount := |ids|;
    accumulated, counts := ZeroLogits(tokenCount, m.classCount), ZeroCounts(tokenCount);
    ghost var ws: seq<Window> := [];
    NothingAccumulated(m, 0, tokenCount);
    CutFromStart(m, 0, ids);
    var start: nat, covered := 0, false;
    while !covered
      invariant start <= tokenCount && CutUpTo(m, 0, ids, ws, start, covered)
      invariant Accumulated(m, accumulated, counts, ws, 0, tokenCount)
      decreases !covered, tokenCount - start
    {
      accumulated, counts, start, covered, ws := AccumulateNext(m, ids, start, accumulated, counts, ws);
    }
    CutWholly(m, 0, ids, ws, start);
  }

  method PredictWordActions(m: Model, words: seq<string>) returns (actions: seq<nat>)
    requires Shaped(m)
    ensures actions == RawActions(m, words)
  {
    var encoding := m.tokenize(words);
    var accumulated, counts := AccumulateWindows(m, encoding.ids);
    MeanLabelsAreTokenLabels(m, accumulated, counts, encoding.ids);
    actions := CollectWordActions(encoding.wordIds, MeanLabels(accumulated, counts), |words|);
  }

  // ----- Many sequences

  /** The windows of the first `n` sequences; one without tokens has none. */
  function AllWindows(m: Model, encodings: seq<Encoding>, n: nat): seq<Window>
    requires Shaped(m) && n <= |encodings|
  {
    if n == 0 then []
    else
      AllWindows(m, encodings, n - 1) + PartOf(m, encodings, n - 1)
  }

  ghost predicate Retagged(ws: seq<Window>, s: nat, ws0: seq<Window>) {
    |ws| == |ws0| && forall i :: 0 <= i < |ws| ==> ws[i].sequence == s && ws0[i] == ws[i].(sequence := 0)
  }

  /** The tag of a window list does not matter to its sums. */
  lemma {:induction false} SumRetagged(m: Model, ws: seq<Window>, s: nat, ws0: seq<Window>, t: nat, c: nat)
    requires Shaped(m) && c < m.classCount && WellFormed(ws) && WellFormed(ws0) && Retagged(ws, s, ws0)
    ensures Sum(m, ws, s, t, c) == Sum(m, ws0, 0, t, c) && Count(ws, s, t) == Count(ws0, 0, t)
    decreases |ws|
  {
    if |ws| > 0 { SumRetagged(m, ws[1..], s, ws0[1..], t, c); }
  }

  lemma {:induction false} WindowsRetagged(m: Model, s: nat, ids: seq<int>, start: nat)
    requires Shaped(m) && start <= |ids|
    ensures Retagged(WindowsFrom(m, s, ids, start), s, WindowsFrom(m, 0, ids, start))
    decreases |ids| - start
  {
    if WindowAt(m, s, ids, start).end < |ids| { WindowsRetagged(m, s, ids, start + Stride(m)); }
  }

  lemma {:induction false} OtherSequences(m: Model, ws: seq<Window>, s: nat, t: nat, c: nat)
    requires Shaped(m) && c < m.classCount && WellFormed(ws) && forall w :: w in ws ==> w.sequence != s
    ensures Sum(m, ws, s, t, c) == 0.0 && Count(ws, s, t) == 0
    decreases |ws|
  {
    if |ws| > 0 { OtherSequences(m, ws[1..], s, t, c); }
  }

  lemma {:induction false} AllWellFormed(m: Model, encodings: seq<Encoding>, n: nat)
    requires Shaped(m) && n <= |encodings|
    ensures WellFormed(AllWindows(m, encodings, n))
    decreases n
  {
    if n > 0 {
      AllWellFormed(m, encodings, n - 1);
      WindowsCover(m, n - 1, encodings[n - 1].ids, 0);
      assert WellFormed(PartOf(m, encodings, n - 1));
    }
  }

  /** Among all windows, a sequence sees the sums of its own. */
  lemma {:induction false} OwnWindows(m: Model, encodings: seq<Encoding>, n: nat, s: nat, t: nat, c: nat)
    requires Shaped(m) && n <= |encodings| && s < |encodings| && t < |encodings[s].ids| && c < m.classCount
    ensures WellFormed(AllWindows(m, encodings, n)) && WellFormed(WindowsFrom(m, 0, encodings[s].ids, 0))
    ensures Sum(m, AllWindows(m, encodings, n), s, t, c) ==
            if s < n then Sum(m, WindowsFrom(m, 0, encodings[s].ids, 0), 0, t, c) else 0.0
    ensures Count(AllWindows(m, encodings, n), s, t) ==
            if s < n then Count(WindowsFrom(m, 0, encodings[s].ids, 0), 0, t) else 0
    decreases n
  {
    WindowsCover(m, 0, encodings[s].ids, 0);
    AllWellFormed(m, encodings, n);
    if n > 0 {
      OwnWindows(m, encodings, n - 1, s, t, c);
      PartSums(m, encodings, n - 1, s, t, c);
      SumConcat(m, AllWindows(m, encodings, n - 1), PartOf(m, encodings, n - 1), s, t, c);
    }
  }

  function PartOf(m: Model, encodings: seq<Encoding>, k: nat): seq<Window>
    requires Shaped(m) && k < |encodings|
  {
    if |encodings[k].ids| == 0 then [] else WindowsFrom(m, k, encodings[k].ids, 0)
  }

  lemma PartSums(m: Model, encodings: seq<Encoding>, k: nat, s: nat, t: nat, c: nat)
    requires Shaped(m) && k < |encodings| && s < |encodings| && t < |encodings[s].ids| && c < m.classCount
    ensures var part, own := PartOf(m, encodings, k), WindowsFrom(m, 0, encodings[s].ids, 0);
            && WellFormed(part) && WellFormed(own)
            && Sum(m, part, s, t, c) == (if s == k then Sum(m, own, 0, t, c) else 0.0)
            && Count(part, s, t) == (if s == k then Count(own, 0, t) else 0)
  {
    WindowsCover(m, 0, encodings[s].ids, 0);
    WindowsCover(m, k, encodings[k].ids, 0);
    if s == k {
      var own := WindowsFrom(m, 0, encodings[s].ids, 0);
      WindowsRetagged(m, s, encodings[s].ids, 0);
      SumRetagged(m, WindowsFrom(m, s, encodings[s].ids, 0), s, own, t, c);
    } else {
      OtherSequences(m, PartOf(m, encodings, k), s, t, c);
    }
  }

  /** The windows the batch predictor cuts are slices of their sequences. */
  lemma {:induction false} AllWindowsFit(m: Model, encodings: seq<Encoding>, n: nat)
    requires Shaped(m) && n <= |encodings|
    ensures forall w :: w in AllWindows(m, encodings, n) ==>
            w.sequence < n && FitsModel(m, encodings[w.sequence].ids, w)
    decreases n
  {
    if n > 0 {
      AllWindowsFit(m, encodings, n - 1);
      WindowsCover(m, n - 1, encodings[n - 1].ids, 0);
      forall w | w in PartOf(m, encodings, n - 1)
        ensures w.sequence == n - 1 && FitsModel(m, encodings[n - 1].ids, w)
      {
      }
    }
  }

  /** Sums over any rearrangement of all windows give each sequence its own labels. */
  lemma BatchLabels(m: Model, encodings: seq<Encoding>, ws: seq<Window>, s: nat, acc: seq<Logits>, counts: seq<nat>)
    requires Shaped(m) && s < |encodings| && multiset(ws) == multiset(AllWindows(m, encodings, |encodings|))
    requires Accumulated(m, acc, counts, ws, s, |encodings[s].ids|)
    ensures forall t :: 0 <= t < |acc| ==> counts[t] > 0
    ensures MeanLabels(acc, counts) == TokenLabels(m, encodings[s].ids)
  {
    var ids, all := encodings[s].ids, AllWindows(m, encodings, |encodings|);
    WindowsCover(m, 0, ids, 0);
    forall t, c | 0 <= t < |ids| && 0 <= c < m.classCount
      ensures acc[t][c] == Sum(m, WindowsFrom(m, 0, ids, 0), 0, t, c) &&
              counts[t] == Count(WindowsFrom(m, 0, ids, 0), 0, t)
    {
      OwnWindows(m, encodings, |encodings|, s, t, c);
      SumPermutation(m, ws, all, s, t, c);
    }
    forall t | 0 <= t < |ids|
      ensures counts[t] == Count(WindowsFrom(m, 0, ids, 0), 0, t)
    {
      OwnWindows(m, encodings, |encodings|, s, t, 0);
      SumPermutation(m, ws, all, s, t, 0);
    }
    MeanLabelsAreTokenLabels(m, acc, counts, ids);
  }

  ghost predicate SortedByLength(ws: seq<Window>) {
    forall i, j :: 0 <= i < j < |ws| ==> ws[i].Length() <= ws[j].Length()
  }

  /** A stable sort by padded length. */
  function SortByLength(ws: seq<Window>): (r: seq<Window>)
    ensures multiset(r) == multiset(ws)
    ensures SortedByLength(r)
  {
    Sort((w: Window) => w.Length(), ws)
  }

  // ----- Packing

  function Longest(ws: seq<Window>): nat {
    if |ws| == 0 then 0
    else var l := Longest(ws[..|ws| - 1]); if ws[|ws| - 1].Length() > l then ws[|ws| - 1].Length() else l
  }

  /** The tokens of `count` rows of one width. */
  function RowTokens(width: nat, count: nat): nat {
    if count == 0 then 0 else RowTokens(width, count - 1) + width
  }

  lemma {:induction false} RowTokensIsProduct(width: nat, count: nat)
    ensures RowTokens(width, count) == width * count
    decreases count
  {
    if count > 0 {
      RowTokensIsProduct(width, count - 1);
      assert width * count == width * (count - 1) + width;
    }
  }

  /** Within the size limit and, padded to the longest, within the token limit. */
  predicate FitsPass(ws: seq<Window>, maxBatchSize: int, maxBatchTokens: int) {
    |ws| <= maxBatchSize && RowTokens(Longest(ws), |ws|) <= maxBatchTokens
  }

  /** One forward pass taken off the front of `rest`: within both limits, or a single window; and as
      large as the limits allow. */
  ghost predicate IsPass(batch: seq<Window>, rest: seq<Window>, maxBatchSize: int, maxBatchTokens: int) {
    && 1 <= |batch| <= |rest| && |batch| <= maxBatchSize && batch == rest[..|batch|]
    && (FitsPass(batch, maxBatchSize, maxBatchTokens) || |batch| == 1)
    && (|batch| < |rest| ==> !FitsPass(rest[..|batch| + 1], maxBatchSize, maxBatchTokens))
  }

  /** The passes follow each other through the first `n` windows. */
  ghost predicate ArePasses(passes: seq<seq<Window>>, windows: seq<Window>, n: nat, maxBatchSize: int,
                            maxBatchTokens: int)
    decreases |passes|
  {
    if |passes| == 0 then n == 0
    else
      var last := passes[|passes| - 1];
      |last| <= n <= |windows| && IsPass(last, windows[n - |last|..], maxBatchSize, maxBatchTokens) &&
      ArePasses(passes[..|passes| - 1], windows, n - |last|, maxBatchSize, maxBatchTokens)
  }

  /** The padded length with one more window, and whether that is too many tokens. */
  method Extend(batch: seq<Window>, paddedLength: nat, candidate: Window, maxBatchSize: int, maxBatchTokens: int)
    returns (candidateLength: nat, overflows: bool)
    requires paddedLength == Longest(batch) && |batch| < maxBatchSize
    ensures candidateLength == Longest(batch + [candidate])
    ensures overflows <==> |batch| > 0 && !FitsPass(batch + [candidate], maxBatchSize, maxBatchTokens)
  {
    candidateLength := if candidate.Length() > paddedLength then candidate.Length() else paddedLength;
    var candidateTokens := candidateLength * (|batch| + 1);
    LongestSnoc(batch, candidate);
    RowTokensIsProduct(candidateLength, |batch| + 1);
    overflows := |batch| > 0 && candidateTokens > maxBatchTokens;
  }

  lemma LongestSnoc(ws: seq<Window>, w: Window)
    ensures Longest(ws + [w]) == if w.Length() > Longest(ws) then w.Length() else Longest(ws)
  {
    assert (ws + [w])[..|ws|] == ws;
  }

  /** A pass that stopped at `cursor`, at the end of the list or at a limit. */
  lemma PassStops(windows: seq<Window>, start: nat, cursor: nat, maxBatchSize: int, maxBatchTokens: int)
    requires start < cursor <= |windows| && cursor - start <= maxBatchSize
    requires cursor - start == 1 || FitsPass(windows[start..cursor], maxBatchSize, maxBatchTokens)
    requires cursor < |windows| ==> !FitsPass(windows[start..cursor] + [windows[cursor]], maxBatchSize, maxBatchTokens)
    ensures IsPass(windows[start..cursor], windows[start..], maxBatchSize, maxBatchTokens)
  {
    var batch, rest := windows[start..cursor], windows[start..];
    assert batch == rest[..|batch|];
    if cursor < |windows| { assert rest[..|batch| + 1] == batch + [windows[cursor]]; }
  }

  method TakePass(windows: seq<Window>, start: nat, maxBatchSize: int, maxBatchTokens: int)
    returns (batch: seq<Window>, paddedLength: nat)
    requires start < |windows| && maxBatchSize >= 1
    ensures IsPass(batch, windows[start..], maxBatchSize, maxBatchTokens) && paddedLength == Longest(batch)
  {
    batch, paddedLength := [], 0;
    var cursor := start;
    while cursor < |windows| && |batch| < maxBatchSize
      invariant start <= cursor <= |windows| && batch == windows[start..cursor] && |batch| <= maxBatchSize
      invariant paddedLength == Longest(batch)
      invariant |batch| <= 1 || FitsPass(batch, maxBatchSize, maxBatchTokens)
    {
      var candidate := windows[cursor];
      var candidateLength, overflows := Extend(batch, paddedLength, candidate, maxBatchSize, maxBatchTokens);
      if overflows {
        break;
      }
      batch := batch + [candidate];
      paddedLength := candidateLength;
      cursor := cursor + 1;
    }
    PassStops(windows, start, cursor, maxBatchSize, maxBatchTokens);
  }

  /** The batch predictor's own copy of the window loop. */
  method CutWindows(m: Model, sequence: nat, ids: seq<int>) returns (windows: seq<Window>)
    requires Shaped(m)
    ensures windows == if |ids| == 0 then [] else WindowsFrom(m, sequence, ids, 0)
  {
    windows := [];
    if |ids| == 0 {
      return;
    }
    CutFromStart(m, sequence, ids);
    var start: nat, covered := 0, false;
    while !covered
      invariant CutUpTo(m, sequence, ids, windows, start, covered)
      decreases !covered, |ids| - start
    {
      var end := Min(start + InnerWindow(m), |ids|);
      var windowIds := [m.clsId] + ids[start..end] + [m.sepId];
      NextWindow(m, sequence, ids, windows, start);
      windows := windows + [Window(sequence, start, end, windowIds)];
      if end >= |ids| {
        covered := true;
      } else {
        start := start + Stride(m);
      }
    }
    CutWholly(m, sequence, ids, windows, start);
  }

  method BuildWindows(m: Model, encodings: seq<Encoding>) returns (windows: seq<Window>)
    requires Shaped(m)
    ensures windows == AllWindows(m, encodings, |encodings|)
  {
    windows := [];
    for s := 0 to |encodings|
      invariant windows == AllWindows(m, encodings, s)
    {
      var own := CutWindows(m, s, encodings[s].ids);
      windows := windows + own;
    }
  }

  /** What one forward pass is given. */
  datatype ForwardCall = ForwardCall(rows: seq<seq<int>>, mask: seq<seq<bool>>)

  /** The windows of the batch, in order, one a row, padded to the longest. */
  ghost predicate IsCallOf(m: Model, call: ForwardCall, batch: seq<Window>) {
    && |call.rows| == |call.mask| == |batch|
    && forall r :: 0 <= r < |batch| ==>
       |call.rows[r]| == Longest(batch) && IsPadded(m, call.rows[r], call.mask[r], batch[r].ids)
  }

  ghost predicate AreCallsOf(m: Model, calls: seq<ForwardCall>, passes: seq<seq<Window>>) {
    |calls| == |passes| && forall i :: 0 <= i < |calls| ==> IsCallOf(m, calls[i], passes[i])
  }

  function PadRow(m: Model, n: nat): (row: seq<int>)
    ensures |row| == n && forall k :: 0 <= k < n ==> row[k] == m.padId
  {
    seq(n, _ => m.padId)
  }

  function PadMask(n: nat): (mask: seq<bool>)
    ensures |mask| == n && forall k :: 0 <= k < n ==> !mask[k]
  {
    seq(n, _ => false)
  }

  lemma RowPadded(m: Model, ids: seq<int>, n: nat)
    requires |ids| <= n
    ensures var row, mask := ids + PadRow(m, n)[|ids|..], Trues(|ids|) + PadMask(n)[|ids|..];
            |row| == n && IsPadded(m, row, mask, ids)
  {
  }

  /** The rows before `row` hold their windows, the others are blank. */
  ghost predicate RowsFilled(m: Model, rows: seq<seq<int>>, masks: seq<seq<bool>>, batch: seq<Window>, row: nat,
                             n: nat)
  {
    && |rows| == |masks| == |batch|
    && (forall r :: 0 <= r < |batch| && r < row ==> |rows[r]| == n && IsPadded(m, rows[r], masks[r], batch[r].ids))
    && (forall r :: row <= r < |batch| ==> rows[r] == PadRow(m, n) && masks[r] == PadMask(n))
  }

  lemma RowFilled(m: Model, rows: seq<seq<int>>, masks: seq<seq<bool>>, batch: seq<Window>, row: nat, n: nat)
    requires RowsFilled(m, rows, masks, batch, row, n) && row < |batch| && |batch[row].ids| <= n
    ensures var ids := batch[row].ids;
            && |rows[row]| == |masks[row]| == n
            && RowsFilled(m, rows[row := ids + rows[row][|ids|..]],
                          masks[row := Trues(|ids|) + masks[row][|ids|..]], batch, row + 1, n)
  {
    RowPadded(m, batch[row].ids, n);
  }

  lemma PassScores(m: Model, call: ForwardCall, batch: seq<Window>, r: nat)
    requires Shaped(m) && RowsIndependent(m) && IsCallOf(m, call, batch) && r < |batch|
    ensures var logits := m.forward(call.rows, call.mask);
            |logits| == |batch| && |batch[r].ids| <= |logits[r]| &&
            logits[r][..|batch[r].ids|] == Score(m, batch[r].ids)
  {
    assert IsPadded(m, call.rows[r], call.mask[r], batch[r].ids);
  }

  /** One padded forward pass gives every window in it the logits it would have alone. */
  method RunPass(m: Model, batch: seq<Window>, paddedLength: nat) returns (logits: seq<seq<Logits>>, call: ForwardCall)
    requires Shaped(m) && RowsIndependent(m) && paddedLength == Longest(batch) && forall w :: w in batch ==>
             |w.ids| <= paddedLength
    ensures IsCallOf(m, call, batch) && logits == m.forward(call.rows, call.mask)
    ensures |logits| == |batch| && forall r :: 0 <= r < |batch| ==>
            |batch[r].ids| <= |logits[r]| && logits[r][..|batch[r].ids|] == Score(m, batch[r].ids)
  {
    var inputBatch := seq(|batch|, _ => PadRow(m, paddedLength));
    var attentionMask := seq(|batch|, _ => PadMask(paddedLength));
    for row := 0 to |batch|
      invariant RowsFilled(m, inputBatch, attentionMask, batch, row, paddedLength)
    {
      var windowIds := batch[row].ids;
      var length := |windowIds|;
      assert batch[row] in batch;
      RowFilled(m, inputBatch, attentionMask, batch, row, paddedLength);
      inputBatch := inputBatch[row := windowIds + inputBatch[row][length..]];
      attentionMask := attentionMask[row := Trues(length) + attentionMask[row][length..]];
    }
    call := ForwardCall(inputBatch, attentionMask);
    logits := m.forward(call.rows, call.mask);
    forall r | 0 <= r < |batch|
      ensures |batch[r].ids| <= |logits[r]| && logits[r][..|batch[r].ids|] == Score(m, batch[r].ids)
    {
      PassScores(m, call, batch, r);
    }
  }

  ghost predicate AllAccumulated(m: Model, accs: seq<seq<Logits>>, counts: seq<seq<nat>>, ws: seq<Window>,
                                 encodings: seq<Encoding>)
    requires Shaped(m)
  {
    |accs| == |counts| == |encodings| &&
    forall s :: 0 <= s < |encodings| ==> Accumulated(m, accs[s], counts[s], ws, s, |encodings[s].ids|)
  }

  lemma AccumulateWindow(m: Model, accs: seq<seq<Logits>>, counts: seq<seq<nat>>, ws: seq<Window>, w: Window,
                         encodings: seq<Encoding>, logits: seq<Logits>)
    requires Shaped(m) && AllAccumulated(m, accs, counts, ws, encodings)
    requires w.sequence < |encodings| && FitsModel(m, encodings[w.sequence].ids, w)
    requires logits == Score(m, w.ids)[1..w.end - w.start + 1]
    ensures var s := w.sequence;
            && w.start + |logits| <= |accs[s]| &&
               (forall k :: 0 <= k < |logits| ==> |logits[k]| == |accs[s][w.start + k]|)
            && AllAccumulated(m, accs[s := AddAt(accs[s], w.start, logits)],
                              counts[s := CountAt(counts[s], w.start, w.end)], ws + [w], encodings)
  {
    var own := w.sequence;
    AccumulateOwn(m, accs[own], counts[own], ws, w, |encodings[own].ids|, logits);
    forall s | 0 <= s < |encodings| && s != own
      ensures Accumulated(m, accs[s], counts[s], ws + [w], s, |encodings[s].ids|)
    {
      AccumulateOther(m, accs[s], counts[s], ws, w, s, |encodings[s].ids|);
    }
  }

  lemma SliceOfPrefix<T>(s: seq<T>, n: nat, a: nat, b: nat)
    requires a <= b <= n <= |s|
    ensures s[..n][a..b] == s[a..b]
  {
  }

  method AccumulatePass(m: Model, batch: seq<Window>, logits: seq<seq<Logits>>, accs0: seq<seq<Logits>>,
                        counts0: seq<seq<nat>>,
                        ghost ws: seq<Window>, ghost encodings: seq<Encoding>)
    returns (accs: seq<seq<Logits>>, counts: seq<seq<nat>>)
    requires Shaped(m) && AllAccumulated(m, accs0, counts0, ws, encodings)
    requires forall w :: w in batch ==> w.sequence < |encodings| && FitsModel(m, encodings[w.sequence].ids, w)
    requires |logits| == |batch| && forall r :: 0 <= r < |batch| ==>
             |batch[r].ids| <= |logits[r]| && logits[r][..|batch[r].ids|] == Score(m, batch[r].ids)
    ensures AllAccumulated(m, accs, counts, ws + batch, encodings)
  {
    accs, counts := accs0, counts0;
    assert ws + batch[..0] == ws;
    for row := 0 to |batch|
      invariant AllAccumulated(m, accs, counts, ws + batch[..row], encodings)
    {
      var w := batch[row];
      var innerCount := w.end - w.start;
      var inner := logits[row][1..innerCount + 1];
      SliceOfPrefix(logits[row], |w.ids|, 1, innerCount + 1);
      AccumulateWindow(m, accs, counts, ws + batch[..row], w, encodings, inner);
      assert ws + batch[..row] + [w] == ws + batch[..row + 1];
      accs := accs[w.sequence := AddAt(accs[w.sequence], w.start, inner)];
      counts := counts[w.sequence := CountAt(counts[w.sequence], w.start, w.end)];
    }
    assert batch[..|batch|] == batch;
  }

  method EmptyAccumulators(m: Model, encodings: seq<Encoding>) returns (accs: seq<seq<Logits>>, counts: seq<seq<nat>>)
    requires Shaped(m)
    ensures AllAccumulated(m, accs, counts, [], encodings)
  {
    accs := seq(|encodings|, s requires 0 <= s < |encodings| => ZeroLogits(|encodings[s].ids|, m.classCount));
    counts := seq(|encodings|, s requires 0 <= s < |encodings| => ZeroCounts(|encodings[s].ids|));
    forall s | 0 <= s < |encodings| ensures Accumulated(m, accs[s], counts[s], [], s, |encodings[s].ids|) {
      NothingAccumulated(m, s, |encodings[s].ids|);
    }
  }

  lemma PassesSnoc(passes: seq<seq<Window>>, batch: seq<Window>, windows: seq<Window>, n: nat, maxBatchSize: int,
                   maxBatchTokens: int)
    requires n <= |windows| && ArePasses(passes, windows, n, maxBatchSize, maxBatchTokens)
    requires IsPass(batch, windows[n..], maxBatchSize, maxBatchTokens)
    ensures ArePasses(passes + [batch], windows, n + |batch|, maxBatchSize, maxBatchTokens)
    ensures windows[..n + |batch|] == windows[..n] + batch
  {
    assert (passes + [batch])[..|passes|] == passes;
  }

  ghost predicate AllFit(m: Model, windows: seq<Window>, encodings: seq<Encoding>) {
    forall w :: w in windows ==> w.sequence < |encodings| && FitsModel(m, encodings[w.sequence].ids, w)
  }

  method RunAndAccumulate(m: Model, batch: seq<Window>, paddedLength: nat, accs0: seq<seq<Logits>>,
                          counts0: seq<seq<nat>>,
                          ghost ws: seq<Window>, ghost encodings: seq<Encoding>)
    returns (accs: seq<seq<Logits>>, counts: seq<seq<nat>>, call: ForwardCall)
    requires Shaped(m) && RowsIndependent(m) && AllFit(m, batch, encodings) && paddedLength == Longest(batch)
    requires AllAccumulated(m, accs0, counts0, ws, encodings)
    ensures AllAccumulated(m, accs, counts, ws + batch, encodings) && IsCallOf(m, call, batch)
  {
    LongestBounds(batch);
    var logits;
    logits, call := RunPass(m, batch, paddedLength);
    accs, counts := AccumulatePass(m, batch, logits, accs0, counts0, ws, encodings);
  }

  lemma CallsSnoc(m: Model, calls: seq<ForwardCall>, passes: seq<seq<Window>>, call: ForwardCall, batch: seq<Window>)
    requires AreCallsOf(m, calls, passes) && IsCallOf(m, call, batch)
    ensures AreCallsOf(m, calls + [call], passes + [batch])
  {
  }

  lemma SliceFits(m: Model, windows: seq<Window>, encodings: seq<Encoding>, lo: nat, hi: nat)
    requires AllFit(m, windows, encodings) && lo <= hi <= |windows|
    ensures AllFit(m, windows[lo..hi], encodings)
  {
    forall w | w in windows[lo..hi]
      ensures w in windows
    {
      assert w in windows[lo..hi];
    }
  }

  lemma Adjacent<T>(s: seq<T>, a: nat, b: nat)
    requires a <= b <= |s|
    ensures s[..a] + s[a..b] == s[..b]
  {
  }

  /** The next pass off the front of what is left, up to `cursor`. */
  method NextPass(windows: seq<Window>, maxBatchSize: int, maxBatchTokens: int, cursor0: nat,
                  ghost passes: seq<seq<Window>>)
    returns (cursor: nat, paddedLength: nat)
    requires maxBatchSize >= 1 && cursor0 < |windows|
    requires ArePasses(passes, windows, cursor0, maxBatchSize, maxBatchTokens)
    ensures cursor0 < cursor <= |windows| && paddedLength == Longest(windows[cursor0..cursor])
    ensures ArePasses(passes + [windows[cursor0..cursor]], windows, cursor, maxBatchSize, maxBatchTokens)
  {
    var batch;
    batch, paddedLength := TakePass(windows, cursor0, maxBatchSize, maxBatchTokens);
    PassesSnoc(passes, batch, windows, cursor0, maxBatchSize, maxBatchTokens);
    cursor := cursor0 + |batch|;
    assert batch == windows[cursor0..cursor];
  }

  /** Runs the windows between two cursors through one forward pass. */
  method RunSlice(m: Model, windows: seq<Window>, ghost encodings: seq<Encoding>, lo: nat, hi: nat, paddedLength: nat,
                  accs0: seq<seq<Logits>>, counts0: seq<seq<nat>>)
    returns (accs: seq<seq<Logits>>, counts: seq<seq<nat>>, call: ForwardCall)
    requires Shaped(m) && RowsIndependent(m) && AllFit(m, windows, encodings)
    requires lo <= hi <= |windows| && paddedLength == Longest(windows[lo..hi])
    requires AllAccumulated(m, accs0, counts0, windows[..lo], encodings)
    ensures AllAccumulated(m, accs, counts, windows[..hi], encodings) && IsCallOf(m, call, windows[lo..hi])
  {
    SliceFits(m, windows, encodings, lo, hi);
    accs, counts, call := RunAndAccumulate(m, windows[lo..hi], paddedLength, accs0, counts0, windows[..lo], encodings);
    Adjacent(windows, lo, hi);
  }

  method RunPasses(m: Model, windows: seq<Window>, encodings: seq<Encoding>, maxBatchSize: int, maxBatchTokens: int)
    returns (accs: seq<seq<Logits>>, counts: seq<seq<nat>>, calls: seq<ForwardCall>, ghost passes: seq<seq<Window>>)
    requires Shaped(m) && RowsIndependent(m) && maxBatchSize >= 1 && AllFit(m, windows, encodings)
    ensures AllAccumulated(m, accs, counts, windows, encodings)
    ensures ArePasses(passes, windows, |windows|, maxBatchSize, maxBatchTokens) && AreCallsOf(m, calls, passes)
  {
    accs, counts := EmptyAccumulators(m, encodings);
    calls, passes := [], [];
    var cursor := 0;
    assert windows[..0] == [];
    while cursor < |windows|
      invariant cursor <= |windows|
      invariant AllAccumulated(m, accs, counts, windows[..cursor], encodings)
      invariant ArePasses(passes, windows, cursor, maxBatchSize, maxBatchTokens)
      invariant AreCallsOf(m, calls, passes)
      decreases |windows| - cursor
    {
      var next, paddedLength := NextPass(windows, maxBatchSize, maxBatchTokens, cursor, passes);
      var call;
      accs, counts, call := RunSlice(m, windows, encodings, cursor, next, paddedLength, accs, counts);
      CallsSnoc(m, calls, passes, call, windows[cursor..next]);
      calls, passes := calls + [call], passes + [windows[cursor..next]];
      cursor := next;
    }
    assert windows[..cursor] == windows;
  }

  lemma {:induction false} LongestBounds(ws: seq<Window>)
    ensures forall w :: w in ws ==> |w.ids| <= Longest(ws)
    decreases |ws|
  {
    if |ws| > 0 {
      LongestBounds(ws[..|ws| - 1]);
      assert ws == ws[..|ws| - 1] + [ws[|ws| - 1]];
    }
  }

  /** The batch predictor returns, sequence by sequence, what the single one would. The forward calls it
      makes are the passes, padded: every window in exactly one, none over the limits unless it is a
      single window. */
  method PredictWordActionsBatch(m: Model, sequences: seq<seq<string>>, maxBatchSize: int, maxBatchTokens: int)
    returns (results: seq<seq<nat>>, calls: seq<ForwardCall>, ghost passes: seq<seq<Window>>)
    requires Shaped(m) && RowsIndependent(m) && maxBatchSize >= 1
    ensures |results| == |sequences| && forall s :: 0 <= s < |sequences| ==> results[s] == RawActions(m, sequences[s])
    ensures ArePasses(passes, SortByLength(AllWindows(m, Encode(m, sequences), |sequences|)),
                      |AllWindows(m, Encode(m, sequences), |sequences|)|, maxBatchSize, maxBatchTokens)
    ensures AreCallsOf(m, calls, passes)
    ensures forall i :: 0 <= i < |calls| ==> CallWithin(calls[i], maxBatchSize, maxBatchTokens)
  {
    var encodings := Encode(m, sequences);
    var windows := BuildWindows(m, encodings);
    AllWindowsFit(m, encodings, |encodings|);
    windows := SortByLength(windows);
    forall w | w in windows ensures w in AllWindows(m, encodings, |encodings|) { assert w in multiset(windows); }
    var accs, counts;
    accs, counts, calls, passes := RunPasses(m, windows, encodings, maxBatchSize, maxBatchTokens);
    CallsWithin(m, calls, passes, windows, maxBatchSize, maxBatchTokens);
    results := LabelSequences(m, sequences, windows, accs, counts);
    assert |windows| == |multiset(windows)| == |multiset(AllWindows(m, encodings, |encodings|))|;
  }

  method LabelSequences(m: Model, sequences: seq<seq<string>>, ghost windows: seq<Window>, accs: seq<seq<Logits>>,
                        counts: seq<seq<nat>>)
    returns (results: seq<seq<nat>>)
    requires Shaped(m) && AllAccumulated(m, accs, counts, windows, Encode(m, sequences))
    requires multiset(windows) == multiset(AllWindows(m, Encode(m, sequences), |sequences|))
    ensures |results| == |sequences| && forall s :: 0 <= s < |sequences| ==> results[s] == RawActions(m, sequences[s])
  {
    results := [];
    for s := 0 to |sequences|
      invariant |results| == s && forall k :: 0 <= k < s ==> results[k] == RawActions(m, sequences[k])
    {
      BatchLabels(m, Encode(m, sequences), windows, s, accs[s], counts[s]);
      var wordIds := m.tokenize(sequences[s]).wordIds;
      var actions := CollectWordActions(wordIds, MeanLabels(accs[s], counts[s]), |sequences[s]|);
      results := results + [actions];
    }
  }

  function Encode(m: Model, sequences: seq<seq<string>>): seq<Encoding> {
    seq(|sequences|, s requires 0 <= s < |sequences| => m.tokenize(sequences[s]))
  }

  /** Within the limits: no more windows than fit, and, at the length of any of them, no more tokens; a
      single window may be as long as it is. */
  ghost predicate WithinLimits(b: seq<Window>, maxBatchSize: int, maxBatchTokens: int) {
    1 <= |b| <= maxBatchSize && (|b| == 1 || forall w :: w in b ==> |w.ids| * |b| <= maxBatchTokens)
  }

  /** With the first window of `next` as well a limit would be broken. */
  ghost predicate IsFull(b: seq<Window>, next: seq<Window>, maxBatchSize: int, maxBatchTokens: int) {
    |next| > 0 && (|b| == maxBatchSize || exists v :: v in b + [next[0]] && |v.ids| * (|b| + 1) > maxBatchTokens)
  }

  lemma {:induction false} LongestIsOne(ws: seq<Window>)
    requires |ws| > 0
    ensures exists w :: w in ws && |w.ids| == Longest(ws)
    decreases |ws|
  {
    var init, last := ws[..|ws| - 1], ws[|ws| - 1];
    assert last in ws && last.Length() == |last.ids|;
    if |ws| > 1 && last.Length() <= Longest(init) {
      LongestIsOne(init);
      var w :| w in init && |w.ids| == Longest(init);
      assert w in ws;
    }
  }

  lemma WiderTakesMore(a: nat, b: nat, n: nat)
    requires a <= b
    ensures a * n <= b * n
  {
  }

  lemma PassWithin(b: seq<Window>, rest: seq<Window>, maxBatchSize: int, maxBatchTokens: int)
    requires IsPass(b, rest, maxBatchSize, maxBatchTokens)
    ensures WithinLimits(b, maxBatchSize, maxBatchTokens)
    ensures |b| < |rest| ==> IsFull(b, rest[|b|..], maxBatchSize, maxBatchTokens)
  {
    if |b| > 1 {
      RowTokensIsProduct(Longest(b), |b|);
      LongestBounds(b);
      forall w | w in b
        ensures |w.ids| * |b| <= maxBatchTokens
      {
        WiderTakesMore(|w.ids|, Longest(b), |b|);
      }
    }
    if |b| < |rest| && |b| != maxBatchSize {
      var more := rest[..|b| + 1];
      assert more == b + [rest[|b|]];
      RowTokensIsProduct(Longest(more), |more|);
      LongestIsOne(more);
    }
  }

  lemma {:induction false} PassesFollow(passes: seq<seq<Window>>, ws: seq<Window>, n: nat, maxBatchSize: int,
                                        maxBatchTokens: int)
    requires ArePasses(passes, ws, n, maxBatchSize, maxBatchTokens)
    ensures n <= |ws| && Flatten(passes) == ws[..n]
    decreases |passes|
  {
    if |passes| > 0 {
      var last, init := passes[|passes| - 1], passes[..|passes| - 1];
      PassesFollow(init, ws, n - |last|, maxBatchSize, maxBatchTokens);
      assert ws[n - |last|..][..|last|] == ws[n - |last|..n];
    }
  }

  /** Pass `i` starts where it says, and is the one taken there. */
  lemma {:induction false} PassTaken(passes: seq<seq<Window>>, ws: seq<Window>, n: nat, maxBatchSize: int,
                                     maxBatchTokens: int, i: nat)
    returns (start: nat)
    requires ArePasses(passes, ws, n, maxBatchSize, maxBatchTokens) && i < |passes|
    ensures start + |passes[i]| <= n <= |ws|
    ensures IsPass(passes[i], ws[start..], maxBatchSize, maxBatchTokens)
    ensures i + 1 < |passes| ==>
              start + |passes[i]| < |ws| && passes[i + 1] != [] && passes[i + 1][0] == ws[start + |passes[i]|]
    ensures i + 1 == |passes| ==> start + |passes[i]| == n
    decreases |passes|
  {
    var last, init := passes[|passes| - 1], passes[..|passes| - 1];
    start := n - |last|;
    if i + 1 < |passes| {
      assert last[0] == ws[start..][0];
      start := PassTaken(init, ws, n - |last|, maxBatchSize, maxBatchTokens, i);
    }
  }

  /** The passes are the list cut into consecutive pieces, so each entry is in exactly one; each is within
      the limits, and each but the last is full. */
  lemma PassesPartition(passes: seq<seq<Window>>, ws: seq<Window>, n: nat, maxBatchSize: int, maxBatchTokens: int)
    requires ArePasses(passes, ws, n, maxBatchSize, maxBatchTokens)
    ensures n <= |ws| && Flatten(passes) == ws[..n]
    ensures forall i :: 0 <= i < |passes| ==> WithinLimits(passes[i], maxBatchSize, maxBatchTokens)
    ensures forall i :: 0 <= i < |passes| - 1 ==> IsFull(passes[i], passes[i + 1], maxBatchSize, maxBatchTokens)
  {
    PassesFollow(passes, ws, n, maxBatchSize, maxBatchTokens);
    forall i | 0 <= i < |passes|
      ensures WithinLimits(passes[i], maxBatchSize, maxBatchTokens)
      ensures i < |passes| - 1 ==> IsFull(passes[i], passes[i + 1], maxBatchSize, maxBatchTokens)
    {
      var start := PassTaken(passes, ws, n, maxBatchSize, maxBatchTokens, i);
      var rest := ws[start..];
      PassWithin(passes[i], rest, maxBatchSize, maxBatchTokens);
      if i < |passes| - 1 { FullBefore(passes[i], rest, passes[i + 1], maxBatchSize, maxBatchTokens); }
    }
  }

  lemma FullBefore(b: seq<Window>, rest: seq<Window>, next: seq<Window>, maxBatchSize: int, maxBatchTokens: int)
    requires |b| < |rest| && IsFull(b, rest[|b|..], maxBatchSize, maxBatchTokens)
    requires |next| > 0 && next[0] == rest[|b|]
    ensures IsFull(b, next, maxBatchSize, maxBatchTokens)
  {
    assert rest[|b|..][0] == next[0];
  }

  /** The forward call has so many rows at most, and so many tokens with its padding, or a single row. */
  ghost predicate CallWithin(call: ForwardCall, maxRows: int, maxTokens: int) {
    && 1 <= |call.rows| <= maxRows
    && (|call.rows| == 1 || forall r :: 0 <= r < |call.rows| ==> |call.rows[r]| * |call.rows| <= maxTokens)
  }

  lemma CallsWithin(m: Model, calls: seq<ForwardCall>, passes: seq<seq<Window>>, ws: seq<Window>, maxBatchSize: int,
                    maxBatchTokens: int)
    requires ArePasses(passes, ws, |ws|, maxBatchSize, maxBatchTokens) && AreCallsOf(m, calls, passes)
    ensures forall i :: 0 <= i < |calls| ==> CallWithin(calls[i], maxBatchSize, maxBatchTokens)
  {
    PassesPartition(passes, ws, |ws|, maxBatchSize, maxBatchTokens);
    forall i | 0 <= i < |calls|
      ensures CallWithin(calls[i], maxBatchSize, maxBatchTokens)
    {
      assert IsCallOf(m, calls[i], passes[i]) && WithinLimits(passes[i], maxBatchSize, maxBatchTokens);
      LongestIsOne(passes[i]);
    }
  }

  function Flatten(passes: seq<seq<Window>>): seq<Window> {
    if |passes| == 0 then [] else Flatten(passes[..|passes| - 1]) + passes[|passes| - 1]
  }
}
