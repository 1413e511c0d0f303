/** How the tool panel arranges the skin's influences: joints whose names
    differ only in their side markers ("left", "right", "l", "r") are
    grouped, a group of two with the same presentation becomes a
    left-right double panel, and everything else gets a panel of its own.
    Also the length of the prefix every joint name shares. */
module JointOrganizer {
  import opened Wrappers
  import opened Strings

  /** A joint as the panel setup collects it: its partial path name, the
      `side` label its node reports (0 centre, 1 left, 2 right, 3 none), and
      its presentation token from the influence listing. */
  datatype Joint = Joint(name: string, side: int, presentation: string)

  /** `stripName`: lower-cased, with every side marker replaced by `~`. */
  function StripName(n: string): (r: string)
    ensures IsLower(r) && 'l' !in r && 'r' !in r
  {
    var s1 := Replace(Lower(n), "left", "~");
    var s2 := Replace(s1, "right", "~");
    var s3 := Replace(s2, "l", "~");
    ReplaceKeepsLower(Lower(n), "left", "~");
    ReplaceKeepsLower(s1, "right", "~");
    ReplaceKeepsLower(s2, "l", "~");
    ReplaceKeepsLower(s3, "r", "~");
    ReplaceCharRemoves(s2, 'l', '~');
    ReplaceCharRemoves(s3, 'r', '~');
    ReplaceChars(s3, "r", "~");
    Replace(s3, "r", "~")
  }

  /** Replacing by lower-case text keeps a text lower-case. */
  lemma ReplaceKeepsLower(s: string, p: string, q: string)
    requires |p| > 0 && IsLower(s) && IsLower(q)
    ensures IsLower(Replace(s, p, q))
  {
    var r := Replace(s, p, q);
    ReplaceChars(s, p, q);
    forall i | 0 <= i < |r| ensures !IsUpper(r[i]) {
      assert r[i] in r;
      if r[i] in s {
        var k :| 0 <= k < |s| && s[k] == r[i];
      } else {
        var k :| 0 <= k < |q| && q[k] == r[i];
      }
    }
  }

  /** Stripping a stripped name changes nothing: every marker is gone. */
  lemma StripNameIdempotent(n: string)
    ensures StripName(StripName(n)) == StripName(n)
  {
    var s := StripName(n);
    LowerIdempotent(s);
    ReplaceMissingChar(s, "left", "~", 0);
    ReplaceMissingChar(s, "right", "~", 0);
    ReplaceMissingChar(s, "l", "~", 0);
    ReplaceMissingChar(s, "r", "~", 0);
  }

  /** Names that differ only in their side marker strip alike:
      "Hand_L" and "hand_r" both become "hand_~", and "LeftHand" and
      "RightHand" both become "~hand". */
  lemma MirroredNamesStripAlike()
    ensures StripName("Hand_L") == StripName("hand_r") == "hand_~"
    ensures StripName("LeftHand") == StripName("RightHand") == "~hand"
  {
    LowerMarkedNames();
    StemsLackSideLetters();
    assert StripName("Hand_L") == "hand_~" by {
      StripFinalSideLetter("Hand_L", "hand_", 'l');
    }
    assert StripName("hand_r") == "hand_~" by {
      StripFinalSideLetter("hand_r", "hand_", 'r');
    }
    assert StripName("LeftHand") == "~hand" by {
      StripLeadingSideWord("LeftHand", "left", "hand");
    }
    assert StripName("RightHand") == "~hand" by {
      StripLeadingSideWord("RightHand", "right", "hand");
    }
  }

  /** The example names split into a stem and a side marker, and the stems
      hold no side letter. */
  lemma StemsLackSideLetters()
    ensures 'e' !in "hand_" && 'i' !in "hand_" && 'l' !in "hand_" && 'r' !in "hand_"
    ensures 'l' !in "hand" && 'r' !in "hand"
    ensures "hand_" + ['l'] == "hand_l" && "hand_" + ['r'] == "hand_r" && "hand_" + ['~'] == "hand_~"
    ensures "left" + "hand" == "lefthand" && "right" + "hand" == "righthand" && "~" + "hand" == "~hand"
  {
  }

  /** The four replacements of `stripName`, one at a time. */
  lemma StripInSteps(n: string, lowered: string, s1: string, s2: string, s3: string, r: string)
    requires Lower(n) == lowered && Replace(lowered, "left", "~") == s1
    requires Replace(s1, "right", "~") == s2 && Replace(s2, "l", "~") == s3
    requires Replace(s3, "r", "~") == r
    ensures StripName(n) == r
  {
  }

  /** Lower-casing the example names. */
  lemma LowerMarkedNames()
    ensures Lower("Hand_L") == "hand_l" && Lower("hand_r") == "hand_r"
    ensures Lower("LeftHand") == "lefthand" && Lower("RightHand") == "righthand"
  {
    assert Lower("Hand_L")[0] == 'h' && Lower("Hand_L")[5] == 'l';
    assert Lower("LeftHand")[0] == 'l' && Lower("LeftHand")[4] == 'h';
    assert Lower("RightHand")[0] == 'r' && Lower("RightHand")[5] == 'h';
  }

  /** A name that lower-cases to a stem without side letters followed by a
      single "l" or "r" strips to the stem followed by "~". */
  lemma StripFinalSideLetter(n: string, stem: string, c: char)
    requires Lower(n) == stem + [c] && (c == 'l' || c == 'r')
    requires 'e' !in stem && 'i' !in stem && 'l' !in stem && 'r' !in stem
    ensures StripName(n) == stem + ['~']
  {
    var s := stem + [c];
    var t := stem + ['~'];
    ReplaceMissingChar(s, "left", "~", 1);
    ReplaceMissingChar(s, "right", "~", 1);
    if c == 'l' {
      ReplaceFinalChar(stem, 'l', '~');
      ReplaceMissingChar(t, "r", "~", 0);
      StripInSteps(n, s, s, s, t, t);
    } else {
      ReplaceMissingChar(s, "l", "~", 0);
      ReplaceFinalChar(stem, 'r', '~');
      StripInSteps(n, s, s, s, s, t);
    }
  }

  /** A name that lower-cases to "left" or "right" followed by a rest
      without side letters strips to "~" followed by that rest. */
  lemma StripLeadingSideWord(n: string, w: string, rest: string)
    requires Lower(n) == w + rest && (w == "left" || w == "right")
    requires 'l' !in rest && 'r' !in rest
    ensures StripName(n) == "~" + rest
  {
    var u := "~" + rest;
    ReplaceMissingChar(u, "right", "~", 0);
    ReplaceMissingChar(u, "l", "~", 0);
    ReplaceMissingChar(u, "r", "~", 0);
    if w == "left" {
      ReplaceLeading("left", rest, "~", 0);
      StripInSteps(n, w + rest, u, u, u, u);
    } else {
      ReplaceMissingChar(w + rest, "left", "~", 0);
      ReplaceLeading("right", rest, "~", 0);
      StripInSteps(n, w + rest, w + rest, u, u, u);
    }
  }

  /** `leftHeuristic`: one point per "l" and ten more per "left". */
  function LeftHeuristic(n: string): nat {
    Count(Lower(n), "l") + 10 * Count(Lower(n), "left")
  }

  /** `rightHeuristic`: one point per "r" and ten more per "right". */
  function RightHeuristic(n: string): nat {
    Count(Lower(n), "r") + 10 * Count(Lower(n), "right")
  }

  /** The single-letter counts are letter counts, and a name scores on a
      side exactly when it holds that side's letter in either case. */
  lemma HeuristicsCountLetters(n: string)
    ensures LeftHeuristic(n) == multiset(Lower(n))['l'] + 10 * Count(Lower(n), "left")
    ensures RightHeuristic(n) == multiset(Lower(n))['r'] + 10 * Count(Lower(n), "right")
    ensures LeftHeuristic(n) > 0 <==> 'l' in Lower(n)
    ensures RightHeuristic(n) > 0 <==> 'r' in Lower(n)
  {
    var s := Lower(n);
    CountSingle(s, 'l');
    CountSingle(s, 'r');
    WordHoldsItsFirstLetter(s, "left");
    WordHoldsItsFirstLetter(s, "right");
  }

  lemma WordHoldsItsFirstLetter(s: string, w: string)
    requires |w| > 0
    ensures Count(s, w) > 0 ==> w[0] in s
  {
    CountPositiveIffContains(s, w);
    ContainsIff(s, w);
    if Count(s, w) > 0 {
      var i: nat :| OccursAt(s, w, i);
      assert s[i] == s[i..i + |w|][0];
    }
  }

  /** The grouping key. */
  function Key(j: Joint): string {
    StripName(j.name)
  }

  /** `strippedJointNames`: the keys of the joints, in input order. */
  function KeysOf(js: seq<Joint>): (r: seq<string>)
    ensures |r| == |js| && forall i :: 0 <= i < |js| ==> r[i] == Key(js[i])
  {
    seq(|js|, i requires 0 <= i < |js| => Key(js[i]))
  }

  /** Reference definition of a group: the joints whose key is `k`, in
      input order. */
  function Filter(js: seq<Joint>, ks: seq<string>, k: string): (r: seq<Joint>)
    requires |ks| == |js|
    decreases |js|
  {
    if |js| == 0 then []
    else Filter(js[..|js| - 1], ks[..|js| - 1], k) + (if ks[|js| - 1] == k then [js[|js| - 1]] else [])
  }

  /** One entry of the `OrderedDict` from stripped name to joints. */
  datatype Group = Group(key: string, joints: seq<Joint>)

  /** The index of the entry for `k`, if there is one. */
  function FindKey(gs: seq<Group>, k: string): (r: Option<nat>)
    ensures r.None? <==> forall i :: 0 <= i < |gs| ==> gs[i].key != k
    ensures r.Some? ==> r.value < |gs| && gs[r.value].key == k
  {
    if |gs| == 0 then None
    else if gs[0].key == k then Some(0)
    else match FindKey(gs[1..], k)
      case None => None
      case Some(i) => Some(i + 1)
  }

  /** One step of the grouping loop: a new key gets a new entry at the
      end; a known key gets the joint appended to its entry. */
  function Insert(gs: seq<Group>, k: string, j: Joint): seq<Group>
  {
    match FindKey(gs, k)
    case None => gs + [Group(k, [j])]
    case Some(i) => gs[i := gs[i].(joints := gs[i].joints + [j])]
  }

  /** The grouping loop over the joints and their stripped names. */
  function GroupJoints(js: seq<Joint>, ks: seq<string>): seq<Group>
    requires |ks| == |js|
    decreases |js|
  {
    if |js| == 0 then [] else Insert(GroupJoints(js[..|js| - 1], ks[..|js| - 1]), ks[|js| - 1], js[|js| - 1])
  }

  /** The joints of all entries, entry by entry. */
  function Flatten(gs: seq<Group>): seq<Joint>
    decreases |gs|
  {
    if |gs| == 0 then [] else gs[0].joints + Flatten(gs[1..])
  }

  /** A filter keeps only joints with its key. */
  lemma {:induction false} FilterHasKey(js: seq<Joint>, ks: seq<string>, k: string)
    requires |ks| == |js| && forall u :: 0 <= u < |js| ==> ks[u] == Key(js[u])
    ensures forall t :: 0 <= t < |Filter(js, ks, k)| ==> Key(Filter(js, ks, k)[t]) == k
    decreases |js|
  {
    if |js| > 0 {
      FilterHasKey(js[..|js| - 1], ks[..|js| - 1], k);
    }
  }

  /** A filter for a key no joint has is empty. */
  lemma {:induction false} FilterAbsent(js: seq<Joint>, ks: seq<string>, k: string)
    requires |ks| == |js| && k !in ks
    ensures Filter(js, ks, k) == []
    decreases |js|
  {
    if |js| > 0 {
      assert forall ch :: ch in ks[..|js| - 1] ==> ch in ks;
      FilterAbsent(js[..|js| - 1], ks[..|js| - 1], k);
    }
  }

  /** The invariant of the grouping loop: the entries have distinct keys,
      each entry is exactly the filter for its key, and every key seen has
      an entry. */
  predicate GroupsInvariant(js: seq<Joint>, ks: seq<string>, gs: seq<Group>)
    requires |ks| == |js|
  {
    DistinctKeys(gs) && EntriesAreFilters(js, ks, gs) && EveryKeyHasEntry(ks, gs)
  }

  predicate DistinctKeys(gs: seq<Group>) {
    forall a, b :: 0 <= a < b < |gs| ==> gs[a].key != gs[b].key
  }

  predicate EntriesAreFilters(js: seq<Joint>, ks: seq<string>, gs: seq<Group>)
    requires |ks| == |js|
  {
    forall i :: 0 <= i < |gs| ==> gs[i].joints == Filter(js, ks, gs[i].key) && |gs[i].joints| > 0
  }

  predicate EveryKeyHasEntry(ks: seq<string>, gs: seq<Group>) {
    forall t :: 0 <= t < |ks| ==> FindKey(gs, ks[t]).Some?
  }

  lemma {:induction false} GroupsAreFilters(js: seq<Joint>, ks: seq<string>)
    requires |ks| == |js|
    ensures GroupsInvariant(js, ks, GroupJoints(js, ks))
    decreases |js|
  {
    if |js| > 0 {
      var n := |js| - 1;
      GroupsAreFilters(js[..n], ks[..n]);
      LastSplit(js);
      LastSplit(ks);
      InsertKeepsInvariant(js[..n], ks[..n], GroupJoints(js[..n], ks[..n]), ks[n], js[n], js, ks, GroupJoints(js, ks));
    }
  }

  /** The filter of a longer input grows by the new joint when it has the
      key. */
  lemma FilterSnoc(js: seq<Joint>, ks: seq<string>, j: Joint, k: string, x: string)
    requires |ks| == |js|
    ensures Filter(js + [j], ks + [k], x) == Filter(js, ks, x) + (if k == x then [j] else [])
  {
    assert (js + [j])[..|js|] == js && (ks + [k])[..|js|] == ks;
  }

  /** One loop step keeps the invariant. */
  lemma InsertKeepsInvariant(js: seq<Joint>, ks: seq<string>, gs: seq<Group>, k: string, j: Joint,
                             js': seq<Joint>, ks': seq<string>, gs': seq<Group>)
    requires |ks| == |js| && GroupsInvariant(js, ks, gs)
    requires js' == js + [j] && ks' == ks + [k] && gs' == Insert(gs, k, j)
    ensures GroupsInvariant(js', ks', gs')
  {
    if FindKey(gs, k).None? {
      NewKeyIsUnseen(ks, gs, k);
      NewEntryKeepsFilters(js, ks, gs, k, j);
      NewEntryKeepsEveryKey(ks, gs, k, j);
    } else {
      var i := FindKey(gs, k).value;
      KnownEntryKeepsFilters(js, ks, gs, k, j, i);
      KnownEntryKeepsEveryKey(ks, gs, k, j, i);
    }
  }

  /** A key without an entry has not been seen. */
  lemma NewKeyIsUnseen(ks: seq<string>, gs: seq<Group>, k: string)
    requires EveryKeyHasEntry(ks, gs) && FindKey(gs, k).None?
    ensures k !in ks
  {
    forall t | 0 <= t < |ks| ensures ks[t] != k {
      assert FindKey(gs, ks[t]).Some?;
    }
  }

  lemma NewEntryKeepsFilters(js: seq<Joint>, ks: seq<string>, gs: seq<Group>, k: string, j: Joint)
    requires |ks| == |js| && EntriesAreFilters(js, ks, gs) && k !in ks && FindKey(gs, k).None?
    ensures EntriesAreFilters(js + [j], ks + [k], gs + [Group(k, [j])])
  {
    var r := gs + [Group(k, [j])];
    FilterAbsent(js, ks, k);
    forall i | 0 <= i < |r| ensures r[i].joints == Filter(js + [j], ks + [k], r[i].key) && |r[i].joints| > 0 {
      FilterSnoc(js, ks, j, k, r[i].key);
    }
  }

  lemma NewEntryKeepsEveryKey(ks: seq<string>, gs: seq<Group>, k: string, j: Joint)
    requires EveryKeyHasEntry(ks, gs)
    ensures EveryKeyHasEntry(ks + [k], gs + [Group(k, [j])])
  {
    var ks', r := ks + [k], gs + [Group(k, [j])];
    forall t | 0 <= t < |ks'| ensures FindKey(r, ks'[t]).Some? {
      if t < |ks| {
        assert ks'[t] == ks[t];
        assert r[FindKey(gs, ks[t]).value].key == ks[t];
      } else {
        assert r[|gs|].key == ks'[t];
      }
    }
  }

  lemma KnownEntryKeepsFilters(js: seq<Joint>, ks: seq<string>, gs: seq<Group>, k: string, j: Joint, i: nat)
    requires |ks| == |js| && DistinctKeys(gs) && EntriesAreFilters(js, ks, gs) && i < |gs| && gs[i].key == k
    ensures EntriesAreFilters(js + [j], ks + [k], gs[i := gs[i].(joints := gs[i].joints + [j])])
  {
    var r := gs[i := gs[i].(joints := gs[i].joints + [j])];
    forall a | 0 <= a < |r| ensures r[a].joints == Filter(js + [j], ks + [k], r[a].key) && |r[a].joints| > 0 {
      FilterSnoc(js, ks, j, k, r[a].key);
    }
  }

  lemma KnownEntryKeepsEveryKey(ks: seq<string>, gs: seq<Group>, k: string, j: Joint, i: nat)
    requires EveryKeyHasEntry(ks, gs) && i < |gs| && gs[i].key == k
    ensures EveryKeyHasEntry(ks + [k], gs[i := gs[i].(joints := gs[i].joints + [j])])
  {
    var ks', r := ks + [k], gs[i := gs[i].(joints := gs[i].joints + [j])];
    forall t | 0 <= t < |ks'| ensures FindKey(r, ks'[t]).Some? {
      if t < |ks| {
        assert ks'[t] == ks[t];
        assert r[FindKey(gs, ks[t]).value].key == ks[t];
      } else {
        assert r[i].key == ks'[t];
      }
    }
  }

  /** The first index of `k` in `ks`, or `|ks|` if it does not occur. */
  function FirstIndex(ks: seq<string>, k: string): (r: nat)
    ensures r <= |ks|
    ensures r < |ks| ==> ks[r] == k
    ensures forall t :: 0 <= t < r ==> ks[t] != k
  {
    if |ks| == 0 then 0 else if ks[0] == k then 0 else 1 + FirstIndex(ks[1..], k)
  }

  lemma FirstIndexIsUnique(ks: seq<string>, k: string, r: nat)
    requires r <= |ks| && (r < |ks| ==> ks[r] == k) && forall t :: 0 <= t < r ==> ks[t] != k
    ensures FirstIndex(ks, k) == r
  {
  }

  /** The entries come in the order their keys first occur in the input,
      as an `OrderedDict` keeps them. */
  predicate InFirstOccurrenceOrder(ks: seq<string>, gs: seq<Group>) {
    (forall i :: 0 <= i < |gs| ==> FirstIndex(ks, gs[i].key) < |ks|)
    && (forall a, b :: 0 <= a < b < |gs| ==> FirstIndex(ks, gs[a].key) < FirstIndex(ks, gs[b].key))
  }

  /** A non-empty sequence is its front and its last element. */
  lemma LastSplit<T>(s: seq<T>)
    requires |s| > 0
    ensures s[..|s| - 1] + [s[|s| - 1]] == s
  {
  }

  /** Every key seen has an entry after grouping. */
  lemma GroupsCoverKeys(js: seq<Joint>, ks: seq<string>)
    requires |ks| == |js|
    ensures EveryKeyHasEntry(ks, GroupJoints(js, ks))
  {
    GroupsAreFilters(js, ks);
  }

  lemma {:induction false} GroupsInFirstOccurrenceOrder(js: seq<Joint>, ks: seq<string>)
    requires |ks| == |js|
    ensures InFirstOccurrenceOrder(ks, GroupJoints(js, ks))
    decreases |js|
  {
    if |js| > 0 {
      var n := |js| - 1;
      GroupsInFirstOccurrenceOrder(js[..n], ks[..n]);
      GroupsCoverKeys(js[..n], ks[..n]);
      LastSplit(ks);
      InsertKeepsOrder(ks[..n], GroupJoints(js[..n], ks[..n]), ks[n], js[n], ks, GroupJoints(js, ks));
    }
  }

  lemma InsertKeepsOrder(ks: seq<string>, gs: seq<Group>, k: string, j: Joint, ks': seq<string>, gs': seq<Group>)
    requires EveryKeyHasEntry(ks, gs) && InFirstOccurrenceOrder(ks, gs)
    requires ks' == ks + [k] && gs' == Insert(gs, k, j)
    ensures InFirstOccurrenceOrder(ks', gs')
  {
    if FindKey(gs, k).None? {
      NewKeyIsUnseen(ks, gs, k);
      NewEntryKeepsOrder(ks, gs, k, j);
    } else {
      KnownEntryKeepsOrder(ks, gs, k, j, FindKey(gs, k).value);
    }
  }

  lemma NewEntryKeepsOrder(ks: seq<string>, gs: seq<Group>, k: string, j: Joint)
    requires InFirstOccurrenceOrder(ks, gs) && k !in ks
    ensures InFirstOccurrenceOrder(ks + [k], gs + [Group(k, [j])])
  {
    var ks', r := ks + [k], gs + [Group(k, [j])];
    forall i | 0 <= i < |gs| ensures FirstIndex(ks', gs[i].key) == FirstIndex(ks, gs[i].key) {
      FirstIndexSnoc(ks, k, gs[i].key);
    }
    FirstIndexIsUnique(ks', k, |ks|);
    assert forall a :: 0 <= a < |gs| ==> r[a] == gs[a];
  }

  lemma KnownEntryKeepsOrder(ks: seq<string>, gs: seq<Group>, k: string, j: Joint, i: nat)
    requires InFirstOccurrenceOrder(ks, gs) && i < |gs| && gs[i].key == k
    ensures InFirstOccurrenceOrder(ks + [k], gs[i := gs[i].(joints := gs[i].joints + [j])])
  {
    var ks', r := ks + [k], gs[i := gs[i].(joints := gs[i].joints + [j])];
    forall a | 0 <= a < |gs| ensures FirstIndex(ks', gs[a].key) == FirstIndex(ks, gs[a].key) {
      FirstIndexSnoc(ks, k, gs[a].key);
    }
    assert forall a :: 0 <= a < |gs| ==> r[a].key == gs[a].key;
  }

  /** Appending keeps the first index of a key already present. */
  lemma FirstIndexSnoc(ks: seq<string>, k: string, x: string)
    requires FirstIndex(ks, x) < |ks|
    ensures FirstIndex(ks + [k], x) == FirstIndex(ks, x)
  {
    FirstIndexIsUnique(ks + [k], x, FirstIndex(ks, x));
  }

  /** Appending an entry appends its joints. */
  lemma {:induction false} FlattenAppend(gs: seq<Group>, g: Group)
    ensures Flatten(gs + [g]) == Flatten(gs) + g.joints
    decreases |gs|
  {
    if |gs| > 0 {
      assert (gs + [g])[1..] == gs[1..] + [g];
      FlattenAppend(gs[1..], g);
    }
  }

  /** Appending a joint to one entry adds it to the flattened multiset. */
  lemma {:induction false} FlattenExtend(gs: seq<Group>, i: nat, j: Joint)
    requires i < |gs|
    ensures multiset(Flatten(gs[i := gs[i].(joints := gs[i].joints + [j])])) == multiset(Flatten(gs)) + multiset{j}
    decreases |gs|
  {
    var u := gs[i := gs[i].(joints := gs[i].joints + [j])];
    assert Flatten(u) == u[0].joints + Flatten(u[1..]);
    assert Flatten(gs) == gs[0].joints + Flatten(gs[1..]);
    if i == 0 {
      assert u[1..] == gs[1..];
    } else {
      assert u[1..] == gs[1..][i - 1 := gs[1..][i - 1].(joints := gs[1..][i - 1].joints + [j])];
      FlattenExtend(gs[1..], i - 1, j);
    }
  }

  /** Every joint lands in exactly one entry. */
  lemma {:induction false} GroupingKeepsEveryJoint(js: seq<Joint>, ks: seq<string>)
    requires |ks| == |js|
    ensures multiset(Flatten(GroupJoints(js, ks))) == multiset(js)
    decreases |js|
  {
    if |js| > 0 {
      var n := |js| - 1;
      GroupingKeepsEveryJoint(js[..n], ks[..n]);
      var prev := GroupJoints(js[..n], ks[..n]);
      assert GroupJoints(js, ks) == Insert(prev, ks[n], js[n]);
      LastSplit(js);
      assert multiset(js) == multiset(js[..n]) + multiset{js[n]};
      InsertAddsJoint(prev, ks[n], js[n]);
    }
  }

  /** One loop step adds the joint to the flattened entries. */
  lemma InsertAddsJoint(gs: seq<Group>, k: string, j: Joint)
    ensures multiset(Flatten(Insert(gs, k, j))) == multiset(Flatten(gs)) + multiset{j}
  {
    match FindKey(gs, k)
    case None =>
      FlattenAppend(gs, Group(k, [j]));
    case Some(i) =>
      FlattenExtend(gs, i, j);
  }

  /** The labelled sides say the first joint is left and the second
      right. */
  predicate LeftThenRight(a: Joint, b: Joint) {
    a.side == 1 && b.side == 2
  }

  /** The name heuristic puts `a` on the left of `b`. */
  predicate LeftOfByName(a: Joint, b: Joint) {
    LeftHeuristic(a.name) >= LeftHeuristic(b.name) && RightHeuristic(b.name) >= RightHeuristic(a.name)
  }

  /** A panel for each joint on its own. */
  function Singles(g: seq<Joint>): (r: seq<seq<Joint>>)
    ensures |r| == |g| && forall i :: 0 <= i < |g| ==> r[i] == [g[i]]
  {
    seq(|g|, i requires 0 <= i < |g| => [g[i]])
  }

  /** The pairing decision for one group. */
  function PairGroup(g: seq<Joint>): seq<seq<Joint>>
  {
    if |g| != 2 then Singles(g)
    else if g[0].presentation != g[1].presentation then Singles(g)
    else if g[0].side == 1 && g[1].side == 2 then [[g[0], g[1]]]
    else if g[0].side == 2 && g[1].side == 1 then [[g[1], g[0]]]
    else if LeftOfByName(g[0], g[1]) then [[g[0], g[1]]]
    else if LeftOfByName(g[1], g[0]) then [[g[1], g[0]]]
    else Singles(g)
  }

  /** Both directions: a group becomes a double panel exactly when it has
      two joints with the same presentation that the side labels or the
      names can order. */
  lemma PairGroupIff(g: seq<Joint>)
    ensures (|PairGroup(g)| == 1 && |PairGroup(g)[0]| == 2)
            <==> |g| == 2 && g[0].presentation == g[1].presentation
                 && (LeftThenRight(g[0], g[1]) || LeftThenRight(g[1], g[0])
                     || LeftOfByName(g[0], g[1]) || LeftOfByName(g[1], g[0]))
  {
  }

  /** Concatenation of the panel entries. */
  function Concat(es: seq<seq<Joint>>): seq<Joint>
    decreases |es|
  {
    if |es| == 0 then [] else es[0] + Concat(es[1..])
  }

  lemma {:induction false} ConcatAppend(a: seq<seq<Joint>>, b: seq<seq<Joint>>)
    ensures Concat(a + b) == Concat(a) + Concat(b)
    decreases |a|
  {
    if |a| > 0 {
      assert (a + b)[1..] == a[1..] + b;
      ConcatAppend(a[1..], b);
      assert Concat(a + b) == a[0] + Concat(a[1..] + b);
    } else {
      assert a + b == b;
    }
  }

  lemma {:induction false} ConcatSingles(g: seq<Joint>)
    ensures Concat(Singles(g)) == g
    decreases |g|
  {
    if |g| > 0 {
      assert Singles(g)[1..] == Singles(g[1..]);
      ConcatSingles(g[1..]);
    }
  }

  /** A group yields its singles or one ordered pair of its two joints. */
  lemma PairGroupShape(g: seq<Joint>)
    ensures PairGroup(g) == Singles(g)
            || (|g| == 2 && (PairGroup(g) == [[g[0], g[1]]] || PairGroup(g) == [[g[1], g[0]]]))
  {
  }

  /** Pairing a group neither loses nor duplicates a joint. */
  lemma PairGroupKeepsJoints(g: seq<Joint>)
    ensures multiset(Concat(PairGroup(g))) == multiset(g)
  {
    PairGroupShape(g);
    if PairGroup(g) == Singles(g) {
      ConcatSingles(g);
    } else {
      assert g == [g[0], g[1]];
      var e := PairGroup(g)[0];
      assert Concat(PairGroup(g)) == e + Concat([]);
      assert multiset(e) == multiset(g);
    }
  }

  /** The panel entries of all groups, group by group. */
  function Pairs(gs: seq<Group>): seq<seq<Joint>>
    decreases |gs|
  {
    if |gs| == 0 then [] else PairGroup(gs[0].joints) + Pairs(gs[1..])
  }

  /** `organizeJoints`. */
  function OrganizeJoints(js: seq<Joint>): seq<seq<Joint>> {
    Pairs(GroupJoints(js, KeysOf(js)))
  }

  lemma {:induction false} PairsKeepJoints(gs: seq<Group>)
    ensures multiset(Concat(Pairs(gs))) == multiset(Flatten(gs))
    decreases |gs|
  {
    if |gs| > 0 {
      PairsKeepJoints(gs[1..]);
      ConcatAppend(PairGroup(gs[0].joints), Pairs(gs[1..]));
      PairGroupKeepsJoints(gs[0].joints);
    }
  }

  /** Flattening the panel entries yields every input joint exactly once. */
  lemma OrganizeKeepsEveryJoint(js: seq<Joint>)
    ensures multiset(Concat(OrganizeJoints(js))) == multiset(js)
  {
    PairsKeepJoints(GroupJoints(js, KeysOf(js)));
    GroupingKeepsEveryJoint(js, KeysOf(js));
  }

  /** What a panel entry may be: a single joint, or two joints that make up
      a whole group of the input, share a presentation, and are ordered
      left then right by their labels or, failing those, by their names. */
  predicate EntryIsSound(js: seq<Joint>, e: seq<Joint>) {
    |e| == 1
    || (|e| == 2
        && e[0].presentation == e[1].presentation
        && Key(e[0]) == Key(e[1])
        && (Filter(js, KeysOf(js), Key(e[0])) == [e[0], e[1]] || Filter(js, KeysOf(js), Key(e[0])) == [e[1], e[0]])
        && !LeftThenRight(e[1], e[0])
        && (LeftThenRight(e[0], e[1]) || LeftOfByName(e[0], e[1])))
  }

  /** Every entry in `es` is sound. */
  predicate AllSound(js: seq<Joint>, es: seq<seq<Joint>>) {
    forall t :: 0 <= t < |es| ==> EntryIsSound(js, es[t])
  }

  lemma AllSoundAppend(js: seq<Joint>, a: seq<seq<Joint>>, b: seq<seq<Joint>>)
    requires AllSound(js, a) && AllSound(js, b)
    ensures AllSound(js, a + b)
  {
    forall t | 0 <= t < |a + b| ensures EntryIsSound(js, (a + b)[t]) {
      if t < |a| {
        assert (a + b)[t] == a[t];
      } else {
        assert (a + b)[t] == b[t - |a|];
      }
    }
  }

  lemma PairGroupIsSound(js: seq<Joint>, k: string)
    ensures AllSound(js, PairGroup(Filter(js, KeysOf(js), k)))
  {
    FilterHasKey(js, KeysOf(js), k);
    PairedGroupIsSound(js, k, Filter(js, KeysOf(js), k));
  }

  /** The same, for the group held in a variable. */
  lemma PairedGroupIsSound(js: seq<Joint>, k: string, g: seq<Joint>)
    requires g == Filter(js, KeysOf(js), k)
    requires forall t :: 0 <= t < |g| ==> Key(g[t]) == k
    ensures AllSound(js, PairGroup(g))
  {
    if |g| == 2 && g[0].presentation == g[1].presentation {
      var a, b := g[0], g[1];
      assert g == [a, b];
      if LeftThenRight(a, b) {
        PairIsSound(js, k, a, b);
      } else if LeftThenRight(b, a) {
        PairIsSound(js, k, b, a);
      } else if LeftOfByName(a, b) {
        PairIsSound(js, k, a, b);
      } else if LeftOfByName(b, a) {
        PairIsSound(js, k, b, a);
      }
    }
  }

  /** One double panel of a whole group of two. */
  lemma PairIsSound(js: seq<Joint>, k: string, a: Joint, b: Joint)
    requires Filter(js, KeysOf(js), k) == [a, b] || Filter(js, KeysOf(js), k) == [b, a]
    requires Key(a) == k && Key(b) == k && a.presentation == b.presentation
    requires !LeftThenRight(b, a) && (LeftThenRight(a, b) || LeftOfByName(a, b))
    ensures EntryIsSound(js, [a, b])
  {
  }

  lemma {:induction false} PairsAreSound(js: seq<Joint>, gs: seq<Group>)
    requires forall i :: 0 <= i < |gs| ==> gs[i].joints == Filter(js, KeysOf(js), gs[i].key)
    ensures AllSound(js, Pairs(gs))
    decreases |gs|
  {
    if |gs| > 0 {
      PairsAreSound(js, gs[1..]);
      PairGroupIsSound(js, gs[0].key);
      AllSoundAppend(js, PairGroup(gs[0].joints), Pairs(gs[1..]));
    }
  }

  /** Every entry has one or two joints; a pair is a whole stripped-name
      group of two with equal presentation, left joint first. */
  lemma OrganizedEntriesAreSound(js: seq<Joint>)
    ensures AllSound(js, OrganizeJoints(js))
  {
    GroupsAreFilters(js, KeysOf(js));
    PairsAreSound(js, GroupJoints(js, KeysOf(js)));
  }

  /** The longest prefix two texts share. */
  function SharedPrefix(a: string, b: string): (r: string)
    ensures r <= a && r <= b
    ensures forall p :: SharedBy([a, b], p) ==> p <= r
  {
    if |a| == 0 || |b| == 0 || a[0] != b[0] then
      assert forall p :: SharedBy([a, b], p) ==> p <= "" by {
        forall p | SharedBy([a, b], p) ensures p <= "" {
          SharedByTwo(a, b, p);
        }
      }
      ""
    else
      var rest := SharedPrefix(a[1..], b[1..]);
      assert forall p :: SharedBy([a, b], p) ==> p <= [a[0]] + rest by {
        forall p | SharedBy([a, b], p) ensures p <= [a[0]] + rest {
          SharedByTwo(a, b, p);
          if |p| > 0 {
            SharedByTwo(a[1..], b[1..], p[1..]);
            assert p == [a[0]] + p[1..];
          }
        }
      }
      assert a == [a[0]] + a[1..] && b == [b[0]] + b[1..];
      [a[0]] + rest
  }

  lemma SharedByTwo(a: string, b: string, p: string)
    ensures SharedBy([a, b], p) <==> p <= a && p <= b
  {
    assert [a, b][0] == a && [a, b][1] == b;
  }

  /** `p` is a prefix of every name. */
  predicate SharedBy(names: seq<string>, p: string) {
    forall i :: 0 <= i < |names| ==> p <= names[i]
  }

  /** `os.path.commonprefix` for a non-empty list: the longest prefix of all
      names. */
  function CommonPrefix(names: seq<string>): (r: string)
    requires |names| > 0
    ensures SharedBy(names, r)
    ensures forall p :: SharedBy(names, p) ==> p <= r
    decreases |names|
  {
    if |names| == 1 then names[0]
    else
      var rest := CommonPrefix(names[1..]);
      assert forall p :: SharedBy(names, p) ==> SharedBy(names[1..], p);
      assert forall p :: SharedBy(names, p) ==> SharedBy([names[0], rest], p);
      SharedPrefix(names[0], rest)
  }

  /** `commonPrefix`: the length of that prefix, or 0 for no joints. */
  function CommonPrefixLength(names: seq<string>): (r: nat)
    ensures forall i :: 0 <= i < |names| ==> r <= |names[i]|
    ensures |names| > 0 ==> r <= |names[0]| && SharedBy(names, names[0][..r])
    ensures forall p :: |names| > 0 && SharedBy(names, p) ==> |p| <= r
  {
    if |names| == 0 then 0 else |CommonPrefix(names)|
  }
}
