/**
 From word labels to utterance groups: normalization of the words, cleanup of adjacent boundary
 labels, restoring source positions, and grouping; one sequence at a time and in a batch. Also the
 overlapping word chunks of long passages.
 */
module BertActions {
  import opened BertWindows
  import opened Options

  // ----- Normalization

  const STRIPPED := {'.', '?', '!', ','}

  function StripPunctuation(s: string): string {
    if |s| == 0 then ""
    else StripPunctuation(s[..|s| - 1]) + if s[|s| - 1] in STRIPPED then "" else [s[|s| - 1]]
  }

  lemma {:induction false} StripConcat(a: string, b: string)
    ensures StripPunctuation(a + b) == StripPunctuation(a) + StripPunctuation(b)
    decreases |b|
  {
    if b == "" {
      assert a + b == a;
    } else {
      var n, all := |b| - 1, a + b;
      assert all[..|all| - 1] == a + b[..n] && all[|all| - 1] == b[n];
      StripConcat(a, b[..n]);
      var last := if b[n] in STRIPPED then "" else [b[n]];
      assert StripPunctuation(all) == StripPunctuation(a + b[..n]) + last;
    }
  }

  /** Full stops, question marks, exclamation marks and commas go, every other character stays in its place. */
  lemma StripsFourMarks(a: string, b: string, c: char)
    ensures StripPunctuation("") == ""
    ensures StripPunctuation([c]) == if c == '.' || c == '?' || c == '!' || c == ',' then "" else [c]
    ensures StripPunctuation(a + b) == StripPunctuation(a) + StripPunctuation(b)
  {
    assert [c][..0] == "";
    StripConcat(a, b);
  }

  /** `lowerStrip` lower-cases a word and trims white space. */
  function Clean(lowerStrip: string -> string, word: string): string {
    StripPunctuation(lowerStrip(word))
  }

  /** The source positions, among the first `n`, of the words that are not dropped. */
  function KeptOf(lowerStrip: string -> string, words: seq<string>, n: nat): seq<nat>
    requires n <= |words|
  {
    if n == 0 then []
    else KeptOf(lowerStrip, words, n - 1) + if Clean(lowerStrip, words[n - 1]) == "" then [] else [n - 1]
  }

  function NormalizedOf(lowerStrip: string -> string, words: seq<string>, n: nat): seq<string>
    requires n <= |words|
  {
    if n == 0 then []
    else
      var cleaned := Clean(lowerStrip, words[n - 1]);
      NormalizedOf(lowerStrip, words, n - 1) + if cleaned == "" then [] else [cleaned]
  }

  function Kept(lowerStrip: string -> string, words: seq<string>): seq<nat> {
    KeptOf(lowerStrip, words, |words|)
  }

  function Normalized(lowerStrip: string -> string, words: seq<string>): seq<string> {
    NormalizedOf(lowerStrip, words, |words|)
  }

  ghost predicate Increasing(indices: seq<nat>, bound: nat) {
    (forall k :: 0 <= k < |indices| ==> indices[k] < bound) && forall k, l :: 0 <= k < l < |indices| ==>
      indices[k] < indices[l]
  }

  /** The normalized words are the non-empty cleaned words, in order, and the mapping says where each
      of them comes from. */
  lemma {:induction false} MappingIsRight(lowerStrip: string -> string, words: seq<string>, n: nat)
    requires n <= |words|
    ensures var indices, normalized := KeptOf(lowerStrip, words, n), NormalizedOf(lowerStrip, words, n);
            && Increasing(indices, n) && |normalized| == |indices| <= n
            && (forall k :: 0 <= k < |indices| ==> normalized[k] == Clean(lowerStrip, words[indices[k]]) != "")
    decreases n
  {
    if n > 0 {
      MappingIsRight(lowerStrip, words, n - 1);
      IncreasingSnoc(KeptOf(lowerStrip, words, n - 1), n - 1);
    }
  }

  lemma IncreasingSnoc(indices: seq<nat>, n: nat)
    requires Increasing(indices, n)
    ensures Increasing(indices, n + 1) && Increasing(indices + [n], n + 1)
  {
  }

  lemma {:induction false} KeptExactly(lowerStrip: string -> string, words: seq<string>, i: nat, n: nat)
    requires i < |words| && n <= |words|
    ensures i in KeptOf(lowerStrip, words, n) <==> i < n && Clean(lowerStrip, words[i]) != ""
    decreases n
  {
    if n > 0 { KeptExactly(lowerStrip, words, i, n - 1); }
  }

  lemma MappingIsComplete(lowerStrip: string -> string, words: seq<string>, n: nat)
    requires n <= |words|
    ensures forall i :: 0 <= i < n ==> (i in KeptOf(lowerStrip, words, n) <==> Clean(lowerStrip, words[i]) != "")
  {
    forall i | 0 <= i < n
      ensures i in KeptOf(lowerStrip, words, n) <==> Clean(lowerStrip, words[i]) != ""
    {
      KeptExactly(lowerStrip, words, i, n);
    }
  }

  method NormalizeWordMapping(lowerStrip: string -> string, words: seq<string>)
    returns (normalized: seq<string>, indices: seq<nat>)
    ensures normalized == Normalized(lowerStrip, words) && indices == Kept(lowerStrip, words)
  {
    normalized, indices := [], [];
    for i := 0 to |words|
      invariant indices == KeptOf(lowerStrip, words, i) && normalized == NormalizedOf(lowerStrip, words, i)
    {
      var lowered := lowerStrip(words[i]);
      if lowered == "" {
        continue;
      }
      var cleaned := StripPunctuation(lowered);
      if cleaned != "" {
        normalized := normalized + [cleaned];
        indices := indices + [i];
      }
    }
  }

  // ----- Cleanup

  /** The earlier of two adjacent positive labels is dropped. */
  function Thinned(raw: seq<int>): seq<int> {
    seq(|raw|, i requires 0 <= i < |raw| => if i + 1 < |raw| && raw[i] > 0 && raw[i + 1] > 0 then 0 else raw[i])
  }

  /** Where source position `i` is in the mapping, its label; elsewhere 0. */
  function LabelAt(indices: seq<nat>, actions: seq<int>, i: nat, n: nat): int
    requires n <= |indices| <= |actions|
  {
    if n == 0 then 0 else if indices[n - 1] == i then actions[n - 1] else LabelAt(indices, actions, i, n - 1)
  }

  function Finalized(wordCount: nat, indices: seq<nat>, raw: seq<int>): seq<int>
    requires |indices| <= |raw|
  {
    seq(wordCount, i requires 0 <= i < wordCount => LabelAt(indices, Thinned(raw), i, |indices|))
  }

  method FinalizeActions(wordCount: nat, indices: seq<nat>, raw: seq<int>) returns (expanded: seq<int>)
    requires |indices| <= |raw| && forall k :: 0 <= k < |indices| ==> indices[k] < wordCount
    ensures expanded == Finalized(wordCount, indices, raw)
  {
    var actions := ThinActions(raw);
    expanded := seq(wordCount, _ => 0);
    for k := 0 to |indices|
      invariant |expanded| == wordCount
      invariant forall i :: 0 <= i < wordCount ==> expanded[i] == LabelAt(indices, actions, i, k)
    {
      expanded := expanded[indices[k] := actions[k]];
    }
  }

  method ThinActions(raw: seq<int>) returns (actions: seq<int>)
    ensures actions == Thinned(raw)
  {
    actions := raw;
    for i := 0 to |raw| - if |raw| == 0 then 0 else 1
      invariant |actions| == |raw|
      invariant forall j :: 0 <= j < |raw| ==> actions[j] == if j < i then Thinned(raw)[j] else raw[j]
    {
      if raw[i] > 0 && raw[i + 1] > 0 {
        actions := actions[i := 0];
      }
    }
  }

  lemma {:induction false} LabelAtIndex(indices: seq<nat>, actions: seq<int>, k: nat, n: nat)
    requires k < n <= |indices| <= |actions|
    requires forall i, j :: 0 <= i < j < |indices| ==> indices[i] < indices[j]
    ensures LabelAt(indices, actions, indices[k], n) == actions[k]
    decreases n
  {
    if k < n - 1 { LabelAtIndex(indices, actions, k, n - 1); }
  }

  lemma {:induction false} LabelElsewhere(indices: seq<nat>, actions: seq<int>, i: nat, n: nat)
    requires n <= |indices| <= |actions| && i !in indices
    ensures LabelAt(indices, actions, i, n) == 0
    decreases n
  {
    if n > 0 {
      assert indices[n - 1] in indices;
      LabelElsewhere(indices, actions, i, n - 1);
    }
  }

  lemma FinalizedLabels(wordCount: nat, indices: seq<nat>, raw: seq<int>)
    requires |indices| == |raw| && Increasing(indices, wordCount)
    ensures forall i :: 0 <= i < wordCount && i !in indices ==> Finalized(wordCount, indices, raw)[i] == 0
    ensures forall k :: 0 <= k < |raw| ==> Finalized(wordCount, indices, raw)[indices[k]] == Thinned(raw)[k]
  {
    forall i | 0 <= i < wordCount && i !in indices ensures Finalized(wordCount, indices, raw)[i] == 0 {
      LabelElsewhere(indices, Thinned(raw), i, |indices|);
    }
    forall k | 0 <= k < |raw| ensures Finalized(wordCount, indices, raw)[indices[k]] == Thinned(raw)[k] {
      LabelAtIndex(indices, Thinned(raw), k, |indices|);
    }
  }

  /** Dropped words get 0, and the k-th kept word gets the k-th cleaned label. */
  lemma CleanupRestoresPositions(lowerStrip: string -> string, words: seq<string>, raw: seq<int>)
    requires |raw| == |Kept(lowerStrip, words)|
    ensures var indices := Kept(lowerStrip, words); var out := Finalized(|words|, indices, raw);
            && |out| == |words| && Increasing(indices, |words|)
            && (forall i :: 0 <= i < |words| && Clean(lowerStrip, words[i]) == "" ==> out[i] == 0)
            && (forall k :: 0 <= k < |raw| ==> out[indices[k]] == Thinned(raw)[k])
  {
    MappingIsRight(lowerStrip, words, |words|);
    MappingIsComplete(lowerStrip, words, |words|);
    FinalizedLabels(|words|, Kept(lowerStrip, words), raw);
  }

  /** A positive label survives exactly when it is the last of its run, unchanged; no two neighbours
      both survive; and every run of positive labels has a survivor. */
  lemma {:induction false} CleanupKeepsLastOfRun(raw: seq<int>, k: nat) returns (last: nat)
    requires k < |raw|
    ensures Thinned(raw)[k] > 0 <==> raw[k] > 0 && !(k + 1 < |raw| && raw[k + 1] > 0)
    ensures raw[k] <= 0 || Thinned(raw)[k] > 0 ==> Thinned(raw)[k] == raw[k]
    ensures k + 1 < |raw| ==> Thinned(raw)[k] <= 0 || Thinned(raw)[k + 1] <= 0
    ensures raw[k] > 0 ==> k <= last < |raw| && Thinned(raw)[last] == raw[last] > 0 && forall j :: k <= j <= last ==>
            raw[j] > 0
    decreases |raw| - k
  {
    last := k;
    if raw[k] > 0 && k + 1 < |raw| && raw[k + 1] > 0 {
      last := CleanupKeepsLastOfRun(raw, k + 1);
    }
  }

  // ----- Predictions

  function Ints(s: seq<nat>): seq<int> {
    seq(|s|, i requires 0 <= i < |s| => s[i])
  }

  /** What the predictor returns for one sequence of words. */
  function Actions(m: Model, lowerStrip: string -> string, words: seq<string>): (actions: seq<int>)
    requires Shaped(m)
    ensures |actions| == |words|
  {
    var normalized := Normalized(lowerStrip, words);
    if |normalized| <= 1 then seq(|words|, _ => 0)
    else
      MappingIsRight(lowerStrip, words, |words|);
      Finalized(|words|, Kept(lowerStrip, words), Ints(RawActions(m, normalized)))
  }

  /** A kept word gets the label the model gives it, unless that and the next kept word's are both positive. */
  predicate IsKeptLabel(raw: seq<nat>, k: nat, action: int) {
    k < |raw| && action == if k + 1 < |raw| && raw[k] > 0 && raw[k + 1] > 0 then 0 else raw[k]
  }

  lemma ThinnedIsKeptLabel(raw: seq<nat>, k: nat)
    requires k < |raw|
    ensures IsKeptLabel(raw, k, Thinned(Ints(raw))[k])
  {
  }

  lemma FewKept(m: Model, lowerStrip: string -> string, words: seq<string>, i: nat)
    requires Shaped(m) && i < |words| && |Normalized(lowerStrip, words)| <= 1
    ensures Actions(m, lowerStrip, words)[i] == 0
  {
  }

  /** Every word that is dropped gets 0, and every word does when at most one is kept; otherwise a kept word
      gets its label, thinned. */
  lemma ActionsOfKept(m: Model, lowerStrip: string -> string, words: seq<string>)
    requires Shaped(m)
    ensures var indices := Kept(lowerStrip, words);
            var raw := RawActions(m, Normalized(lowerStrip, words));
            var actions := Actions(m, lowerStrip, words);
            && |raw| == |indices| && Increasing(indices, |words|)
            && (forall i :: 0 <= i < |words| && (|indices| <= 1 || i !in indices) ==> actions[i] == 0)
            && (forall k :: 0 <= k < |indices| && |indices| > 1 ==> IsKeptLabel(raw, k, actions[indices[k]]))
  {
    MappingIsRight(lowerStrip, words, |words|);
    var indices, raw := Kept(lowerStrip, words), RawActions(m, Normalized(lowerStrip, words));
    if |indices| <= 1 {
      forall i | 0 <= i < |words| ensures Actions(m, lowerStrip, words)[i] == 0 {
        FewKept(m, lowerStrip, words, i);
      }
    } else {
      ActiveActions(m, lowerStrip, words);
      FinalizedLabels(|words|, indices, Ints(raw));
      forall k | 0 <= k < |indices| ensures IsKeptLabel(raw, k, Actions(m, lowerStrip, words)[indices[k]]) {
        ThinnedIsKeptLabel(raw, k);
      }
    }
  }

  method PredictActions(m: Model, lowerStrip: string -> string, words: seq<string>) returns (actions: seq<int>)
    requires Shaped(m)
    ensures actions == Actions(m, lowerStrip, words)
  {
    var normalized, indices := NormalizeWordMapping(lowerStrip, words);
    MappingIsRight(lowerStrip, words, |words|);
    if |normalized| <= 1 {
      return seq(|words|, _ => 0);
    }
    var raw := PredictWordActions(m, normalized);
    actions := FinalizeActions(|words|, indices, Ints(raw));
  }

  /** The sequences, among the first `n`, that go to the model: those with two normalized words or more. */
  function ActiveSequences(lowerStrip: string -> string, sequences: seq<seq<string>>, n: nat): seq<nat>
    requires n <= |sequences|
  {
    if n == 0 then []
    else
      ActiveSequences(lowerStrip, sequences, n - 1) +
      if |Normalized(lowerStrip, sequences[n - 1])| <= 1 then [] else [n - 1]
  }

  lemma {:induction false} ActiveMembers(lowerStrip: string -> string, sequences: seq<seq<string>>, n: nat)
    requires n <= |sequences|
    ensures Increasing(ActiveSequences(lowerStrip, sequences, n), n)
    ensures forall s :: 0 <= s < n ==>
            (s in ActiveSequences(lowerStrip, sequences, n) <==> |Normalized(lowerStrip, sequences[s])| > 1)
    decreases n
  {
    if n > 0 { ActiveMembers(lowerStrip, sequences, n - 1); }
  }

  method SelectActive(lowerStrip: string -> string, sequences: seq<seq<string>>)
    returns (active: seq<nat>, mappings: seq<seq<nat>>, normalized: seq<seq<string>>)
    ensures active == ActiveSequences(lowerStrip, sequences, |sequences|)
    ensures |mappings| == |normalized| == |active|
    ensures forall k :: 0 <= k < |active| ==>
            active[k] < |sequences| && mappings[k] == Kept(lowerStrip, sequences[active[k]])
    ensures forall k :: 0 <= k < |active| ==>
            active[k] < |sequences| && normalized[k] == Normalized(lowerStrip, sequences[active[k]])
  {
    active, mappings, normalized := [], [], [];
    for s := 0 to |sequences|
      invariant active == ActiveSequences(lowerStrip, sequences, s)
      invariant |mappings| == |normalized| == |active|
      invariant forall k :: 0 <= k < |active| ==>
                active[k] < |sequences| && mappings[k] == Kept(lowerStrip, sequences[active[k]])
      invariant forall k :: 0 <= k < |active| ==>
                active[k] < |sequences| && normalized[k] == Normalized(lowerStrip, sequences[active[k]])
    {
      var words, indices := NormalizeWordMapping(lowerStrip, sequences[s]);
      if |words| <= 1 {
        continue;
      }
      normalized := normalized + [words];
      mappings := mappings + [indices];
      active := active + [s];
    }
  }

  lemma DoneSnoc(active: seq<nat>, k: nat)
    requires k < |active|
    ensures forall s :: s in active[..k + 1] <==> s in active[..k] || s == active[k]
  {
    assert active[..k + 1] == active[..k] + [active[k]];
  }

  /** Finalizes the model's labels into the result slots of the active sequences. */
  method PlaceActive(sequences: seq<seq<string>>, active: seq<nat>, mappings: seq<seq<nat>>, raw: seq<seq<nat>>,
                     ghost wanted: seq<seq<int>>)
    returns (results: seq<seq<int>>)
    requires |active| == |mappings| == |raw| && |wanted| == |sequences|
    requires forall k :: 0 <= k < |active| ==>
             active[k] < |sequences| && Increasing(mappings[k], |sequences[active[k]]|) && |mappings[k]| == |raw[k]|
    requires forall k :: 0 <= k < |active| ==>
             wanted[active[k]] == Finalized(|sequences[active[k]]|, mappings[k], Ints(raw[k]))
    requires forall s :: 0 <= s < |sequences| && s !in active ==> wanted[s] == seq(|sequences[s]|, _ => 0)
    ensures results == wanted
  {
    results := seq(|sequences|, s requires 0 <= s < |sequences| => seq(|sequences[s]|, _ => 0));
    for k := 0 to |active|
      invariant |results| == |sequences|
      invariant forall s :: 0 <= s < |sequences| && (s in active[..k] || s !in active) ==> results[s] == wanted[s]
    {
      var s := active[k];
      var actions := FinalizeActions(|sequences[s]|, mappings[k], Ints(raw[k]));
      DoneSnoc(active, k);
      results := results[s := actions];
    }
    assert active[..|active|] == active;
  }

  lemma ActiveActions(m: Model, lowerStrip: string -> string, words: seq<string>)
    requires Shaped(m) && |Normalized(lowerStrip, words)| > 1
    ensures Increasing(Kept(lowerStrip, words), |words|) && |Kept(lowerStrip, words)| == |Normalized(lowerStrip, words)|
    ensures Actions(m, lowerStrip, words) ==
            Finalized(|words|, Kept(lowerStrip, words), Ints(RawActions(m, Normalized(lowerStrip, words))))
  {
    MappingIsRight(lowerStrip, words, |words|);
  }

  /** What `PlaceActive` asks of one active sequence. */
  lemma ActiveWanted(m: Model, lowerStrip: string -> string, words: seq<string>, mapping: seq<nat>, raw: seq<nat>)
    requires Shaped(m) && |Normalized(lowerStrip, words)| > 1
    requires mapping == Kept(lowerStrip, words) && raw == RawActions(m, Normalized(lowerStrip, words))
    ensures Increasing(mapping, |words|) && |mapping| == |raw|
    ensures Actions(m, lowerStrip, words) == Finalized(|words|, mapping, Ints(raw))
  {
    ActiveActions(m, lowerStrip, words);
  }

  /** The labels of the active sequences, with the predictor's own limits; without any there is no call. */
  method PredictActive(m: Model, normalized: seq<seq<string>>) returns (raw: seq<seq<nat>>, calls: seq<ForwardCall>)
    requires Shaped(m) && RowsIndependent(m)
    ensures |raw| == |normalized| && forall s :: 0 <= s < |raw| ==> raw[s] == RawActions(m, normalized[s])
    ensures forall i :: 0 <= i < |calls| ==> CallWithin(calls[i], 32, 2048)
  {
    if |normalized| == 0 {
      return [], [];
    }
    ghost var passes;
    raw, calls, passes := PredictWordActionsBatch(m, normalized, 32, 2048);
  }

  method PredictActionsBatch(m: Model, lowerStrip: string -> string, sequences: seq<seq<string>>)
    returns (results: seq<seq<int>>, calls: seq<ForwardCall>)
    requires Shaped(m) && RowsIndependent(m)
    ensures |results| == |sequences|
    ensures forall s :: 0 <= s < |sequences| ==> results[s] == Actions(m, lowerStrip, sequences[s])
    ensures forall i :: 0 <= i < |calls| ==> CallWithin(calls[i], 32, 2048)
  {
    var active, mappings, normalized := SelectActive(lowerStrip, sequences);
    ActiveMembers(lowerStrip, sequences, |sequences|);
    var raw;
    raw, calls := PredictActive(m, normalized);
    ghost var wanted := seq(|sequences|, s requires 0 <= s < |sequences| => Actions(m, lowerStrip, sequences[s]));
    forall k | 0 <= k < |active|
      ensures Increasing(mappings[k], |sequences[active[k]]|) && |mappings[k]| == |raw[k]|
      ensures wanted[active[k]] == Finalized(|sequences[active[k]]|, mappings[k], Ints(raw[k]))
    {
      assert active[k] in active;
      ActiveWanted(m, lowerStrip, sequences[active[k]], mappings[k], raw[k]);
    }
    results := PlaceActive(sequences, active, mappings, raw, wanted);
  }

  // ----- Grouping

  const BOUNDARY_ACTIONS := {2, 3, 4}

  /** The group of position `i`: the number of boundaries before it. */
  function GroupOf(actions: seq<int>, i: nat): nat
    requires i <= |actions|
  {
    if i == 0 then 0 else GroupOf(actions, i - 1) + if actions[i - 1] in BOUNDARY_ACTIONS then 1 else 0
  }

  function Groups(actions: seq<int>): seq<nat> {
    seq(|actions|, i requires 0 <= i < |actions| => GroupOf(actions, i))
  }

  method AssignGroups(actions: seq<int>) returns (assignments: seq<nat>)
    ensures assignments == Groups(actions)
  {
    assignments := [];
    var currentGroup := 0;
    for i := 0 to |actions|
      invariant |assignments| == i && currentGroup == GroupOf(actions, i)
      invariant forall j :: 0 <= j < i ==> assignments[j] == GroupOf(actions, j)
    {
      assignments := assignments + [currentGroup];
      if actions[i] in BOUNDARY_ACTIONS {
        currentGroup := currentGroup + 1;
      }
    }
  }

  function Assignments(m: Model, lowerStrip: string -> string, words: seq<string>): seq<nat>
    requires Shaped(m)
  {
    Groups(Actions(m, lowerStrip, words))
  }

  /** The assignments follow the words, start at 0, and rise by one exactly after each boundary word. */
  lemma AssignmentsRiseAtBoundaries(m: Model, lowerStrip: string -> string, words: seq<string>)
    requires Shaped(m)
    ensures var actions, groups := Actions(m, lowerStrip, words), Assignments(m, lowerStrip, words);
            && |groups| == |words|
            && (|groups| > 0 ==> groups[0] == 0)
            && (forall i :: 0 <= i < |groups| - 1 ==>
                  groups[i + 1] == groups[i] + if actions[i] in {2, 3, 4} then 1 else 0)
  {
    var actions := Actions(m, lowerStrip, words);
    forall i | 0 <= i < |actions| - 1
      ensures GroupOf(actions, i + 1) == GroupOf(actions, i) + if actions[i] in BOUNDARY_ACTIONS then 1 else 0
    {
    }
  }

  lemma {:induction false} NoBoundaryNoGroup(actions: seq<int>, i: nat)
    requires i <= |actions| && forall k :: 0 <= k < |actions| ==> actions[k] == 0
    ensures GroupOf(actions, i) == 0
    decreases i
  {
    if i > 0 { NoBoundaryNoGroup(actions, i - 1); }
  }

  method PredictAssignments(m: Model, lowerStrip: string -> string, words: seq<string>) returns (assignments: seq<nat>)
    requires Shaped(m)
    ensures assignments == Assignments(m, lowerStrip, words)
  {
    if |words| <= 1 {
      assignments := seq(|words|, _ => 0);
      MappingIsRight(lowerStrip, words, |words|);
      forall i | 0 <= i < |words| ensures GroupOf(Actions(m, lowerStrip, words), i) == 0 {
        NoBoundaryNoGroup(Actions(m, lowerStrip, words), i);
      }
      return;
    }
    var actions := PredictActions(m, lowerStrip, words);
    assignments := AssignGroups(actions);
  }

  /** The batch form gives every sequence what the single form gives it. */
  method PredictAssignmentsBatch(m: Model, lowerStrip: string -> string, sequences: seq<seq<string>>)
    returns (results: seq<seq<nat>>)
    requires Shaped(m) && RowsIndependent(m)
    ensures |results| == |sequences| && forall s :: 0 <= s < |sequences| ==>
            results[s] == Assignments(m, lowerStrip, sequences[s])
  {
    var actions, _ := PredictActionsBatch(m, lowerStrip, sequences);
    results := [];
    for s := 0 to |actions|
      invariant |results| == s && forall k :: 0 <= k < s ==> results[k] == Assignments(m, lowerStrip, sequences[k])
    {
      var assignments := AssignGroups(actions[s]);
      results := results + [assignments];
    }
  }

  // ----- Word chunks

  datatype Chunking = Chunks(chunks: seq<(nat, seq<string>)>) | ValueError(message: string)

  ghost predicate IsSlice(chunk: seq<string>, words: seq<string>, start: nat) {
    start + |chunk| <= |words| && chunk == words[start..start + |chunk|]
  }

  /** Each chunk is the slice it says; the first starts with the passage, and each next one a step later. */
  ghost predicate AreSteps(chunks: seq<(nat, seq<string>)>, words: seq<string>, step: int) {
    && (|chunks| > 0 ==> chunks[0].0 == 0)
    && (forall k :: 0 <= k < |chunks| ==> IsSlice(chunks[k].1, words, chunks[k].0))
    && (forall k :: 0 <= k < |chunks| - 1 ==> chunks[k + 1].0 == chunks[k].0 + step)
  }

  /** Slices that start `chunkSize - overlap` apart, all full but maybe the last, which ends with the
      passage. */
  ghost predicate AreChunks(chunks: seq<(nat, seq<string>)>, words: seq<string>, chunkSize: int, overlap: int) {
    && |chunks| > 0 && AreSteps(chunks, words, chunkSize - overlap)
    && (forall k :: 0 <= k < |chunks| - 1 ==> |chunks[k].1| == chunkSize)
    && |chunks[|chunks| - 1].1| <= chunkSize
    && chunks[|chunks| - 1].0 + |chunks[|chunks| - 1].1| == |words|
  }

  lemma StepsSnoc(chunks: seq<(nat, seq<string>)>, words: seq<string>, step: int, start: nat, end: nat)
    requires AreSteps(chunks, words, step) && start <= end <= |words|
    requires start == if |chunks| == 0 then 0 else chunks[|chunks| - 1].0 + step
    ensures AreSteps(chunks + [(start, words[start..end])], words, step)
  {
  }

  method ChunkWordsForBert(words: seq<string>, chunkSize: int, overlap: int) returns (r: Chunking)
    ensures r.Chunks? <==> chunkSize > 0 && 0 <= overlap < chunkSize
    ensures chunkSize <= 0 ==> r == ValueError("chunk_size must be positive")
    ensures chunkSize > 0 && !(0 <= overlap < chunkSize) ==> r == ValueError("overlap must be in [0, chunk_size)")
    ensures r.Chunks? ==> AreChunks(r.chunks, words, chunkSize, overlap)
    ensures r.Chunks? && |words| <= chunkSize ==> r.chunks == [(0, words)]
  {
    if chunkSize <= 0 {
      return ValueError("chunk_size must be positive");
    }
    if overlap < 0 || overlap >= chunkSize {
      return ValueError("overlap must be in [0, chunk_size)");
    }
    if |words| <= chunkSize {
      return Chunks([(0, words)]);
    }
    var step := chunkSize - overlap;
    var chunks: seq<(nat, seq<string>)> := [];
    var start: nat, n := 0, |words|;
    while start < n
      invariant start < n && start == if |chunks| == 0 then 0 else chunks[|chunks| - 1].0 + step
      invariant AreSteps(chunks, words, step) && forall k :: 0 <= k < |chunks| ==> |chunks[k].1| == chunkSize
      decreases n - start
    {
      var end := Min(start + chunkSize, n);
      StepsSnoc(chunks, words, step, start, end);
      chunks := chunks + [(start, words[start..end])];
      if end == n {
        break;
      }
      start := start + step;
    }
    r := Chunks(chunks);
  }

  /** Every word is in some chunk. */
  lemma ChunksCover(chunks: seq<(nat, seq<string>)>, words: seq<string>, chunkSize: int, overlap: int, i: nat)
    returns (k: nat)
    requires 0 <= overlap < chunkSize && AreChunks(chunks, words, chunkSize, overlap) && i < |words|
    ensures k < |chunks| && chunks[k].0 <= i < chunks[k].0 + |chunks[k].1| && chunks[k].1[i - chunks[k].0] == words[i]
  {
    k := 0;
    while i >= chunks[k].0 + |chunks[k].1|
      invariant k < |chunks| && chunks[k].0 <= i
      decreases |chunks| - k
    {
      k := k + 1;
    }
  }
}
