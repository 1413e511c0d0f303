/** The tool panel's own logic: reading the influence listing, laying out
    one panel per joint with its title and kind, marking the selected
    panel, filtering panels by a search text, and queueing panel refreshes
    when a joint's rotation or translation changes. */
module ToolPanel {
  import opened Wrappers
  import opened Strings
  import P = Presentation
  import JO = JointOrganizer

  /** One influence of the skin as the `-io` query reports it: its full
      path name and its presentation style. */
  datatype Influence = Influence(name: string, style: P.Style)

  /** The token after a name: `!` followed by the style letters. The mark
      keeps a joint without a style from producing an empty token. */
  function Marker(style: P.Style): (r: string)
    ensures |r| > 0 && r[0] == '!' && r[1..] == P.ToString(style)
  {
    "!" + P.ToString(style)
  }

  /** The marker decodes to the style it was written from, less any bit
      the presentation does not know. */
  lemma MarkerDecodes(style: P.Style)
    ensures P.FromString(Marker(style)) == style & P.Known
  {
    P.FromStringOfToString(style);
    assert '!' != 'r' && '!' != 't';
  }

  /** The `-io` query reply: each influence as its name, a space and its
      marker, the entries separated by single spaces. */
  function Listing(infl: seq<Influence>): string
    decreases |infl|
  {
    if |infl| == 0 then ""
    else if |infl| == 1 then infl[0].name + " " + Marker(infl[0].style)
    else infl[0].name + " " + Marker(infl[0].style) + " " + Listing(infl[1..])
  }

  /** The names and markers of the influences, in order. */
  function Names(infl: seq<Influence>): (r: seq<string>)
    ensures |r| == |infl| && forall i :: 0 <= i < |infl| ==> r[i] == infl[i].name
  {
    seq(|infl|, i requires 0 <= i < |infl| => infl[i].name)
  }

  function Markers(infl: seq<Influence>): (r: seq<string>)
    ensures |r| == |infl| && forall i :: 0 <= i < |infl| ==> r[i] == Marker(infl[i].style)
  {
    seq(|infl|, i requires 0 <= i < |infl| => Marker(infl[i].style))
  }

  /** `a[0], b[0], a[1], b[1], …`. */
  function Interleave(a: seq<string>, b: seq<string>): (r: seq<string>)
    requires |a| == |b|
    ensures |r| == 2 * |a|
    decreases |a|
  {
    if |a| == 0 then [] else [a[0], b[0]] + Interleave(a[1..], b[1..])
  }

  /** Element `2i` comes from `a` and element `2i + 1` from `b`. */
  lemma {:induction false} InterleaveAt(a: seq<string>, b: seq<string>, i: nat)
    requires |a| == |b| && i < |a|
    ensures Interleave(a, b)[2 * i] == a[i] && Interleave(a, b)[2 * i + 1] == b[i]
    decreases i
  {
    if i > 0 {
      InterleaveAt(a[1..], b[1..], i - 1);
      PastTwo(a[0], b[0], Interleave(a[1..], b[1..]), 2 * (i - 1));
    }
  }

  lemma PastTwo(x: string, y: string, rest: seq<string>, k: nat)
    requires k + 1 < |rest|
    ensures ([x, y] + rest)[k + 2] == rest[k] && ([x, y] + rest)[k + 3] == rest[k + 1]
  {
  }

  /** The tokens of the listing, in order: each name, then its marker. */
  function Tokens(infl: seq<Influence>): (r: seq<string>)
    ensures |r| == 2 * |infl|
  {
    Interleave(Names(infl), Markers(infl))
  }

  /** Token `2i` is name `i` and token `2i + 1` its marker. */
  lemma TokensAt(infl: seq<Influence>, i: nat)
    requires i < |infl|
    ensures Tokens(infl)[2 * i] == infl[i].name && Tokens(infl)[2 * i + 1] == Marker(infl[i].style)
  {
    InterleaveAt(Names(infl), Markers(infl), i);
  }

  /** Past the first influence, the tokens are those of the rest. */
  lemma TokensCons(infl: seq<Influence>)
    requires |infl| > 0
    ensures Tokens(infl) == [infl[0].name, Marker(infl[0].style)] + Tokens(infl[1..])
  {
    assert Names(infl)[1..] == Names(infl[1..]);
    assert Markers(infl)[1..] == Markers(infl[1..]);
  }

  /** The listing is its tokens joined by spaces. */
  lemma {:induction false} ListingJoinsTokens(infl: seq<Influence>)
    requires |infl| > 0
    ensures Listing(infl) == Join(Tokens(infl), ' ')
    decreases |infl|
  {
    var n, m := infl[0].name, Marker(infl[0].style);
    var rest := Tokens(infl[1..]);
    TokensCons(infl);
    JoinPair(n, m, rest, ' ');
    if |infl| > 1 {
      ListingJoinsTokens(infl[1..]);
    }
  }

  lemma JoinPair(n: string, m: string, rest: seq<string>, c: char)
    ensures |rest| == 0 ==> Join([n, m] + rest, c) == n + [c] + m
    ensures |rest| > 0 ==> Join([n, m] + rest, c) == n + [c] + m + [c] + Join(rest, c)
  {
    var t := [n, m] + rest;
    assert t[1..] == [m] + rest;
    assert t[1..][1..] == rest;
  }

  /** `ioTokens[::2]`. */
  function Evens(ts: seq<string>): (r: seq<string>)
    ensures |r| == (|ts| + 1) / 2 && forall i :: 0 <= i < |r| ==> r[i] == ts[2 * i]
  {
    seq((|ts| + 1) / 2, i requires 0 <= i < (|ts| + 1) / 2 => ts[2 * i])
  }

  /** `ioTokens[1::2]`. */
  function Odds(ts: seq<string>): (r: seq<string>)
    ensures |r| == |ts| / 2 && forall i :: 0 <= i < |r| ==> r[i] == ts[2 * i + 1]
  {
    seq(|ts| / 2, i requires 0 <= i < |ts| / 2 => ts[2 * i + 1])
  }

  /** A name the host can list: non-empty and free of spaces. */
  predicate ListableName(name: string) {
    |name| > 0 && ' ' !in name
  }

  /** Splitting the listing on spaces and taking every other token gives
      the names back, and the tokens between give each influence's marker,
      which decodes to its style. */
  lemma ListingRoundTrip(infl: seq<Influence>)
    requires |infl| > 0 && forall i :: 0 <= i < |infl| ==> ListableName(infl[i].name)
    ensures var ts := Split(Listing(infl), ' ');
            |Evens(ts)| == |Odds(ts)| == |infl|
            && (forall i :: 0 <= i < |infl| ==> Evens(ts)[i] == infl[i].name)
            && (forall i :: 0 <= i < |infl| ==> Odds(ts)[i] == Marker(infl[i].style))
            && (forall i :: 0 <= i < |infl| ==> P.FromString(Odds(ts)[i]) == infl[i].style & P.Known)
  {
    ListingSplitsIntoTokens(infl);
    TokensAlternate(infl);
    forall i | 0 <= i < |infl| ensures P.FromString(Marker(infl[i].style)) == infl[i].style & P.Known {
      MarkerDecodes(infl[i].style);
    }
  }

  /** Splitting the listing on spaces recovers its tokens. */
  lemma ListingSplitsIntoTokens(infl: seq<Influence>)
    requires |infl| > 0 && forall i :: 0 <= i < |infl| ==> ListableName(infl[i].name)
    ensures Split(Listing(infl), ' ') == Tokens(infl)
  {
    ListingJoinsTokens(infl);
    TokensHaveNoSpace(infl);
    SplitJoin(Tokens(infl), ' ');
  }

  /** Every other token is a name, and the ones between are the markers. */
  lemma TokensAlternate(infl: seq<Influence>)
    ensures |Evens(Tokens(infl))| == |Odds(Tokens(infl))| == |infl|
    ensures forall i :: 0 <= i < |infl| ==> Evens(Tokens(infl))[i] == infl[i].name
    ensures forall i :: 0 <= i < |infl| ==> Odds(Tokens(infl))[i] == Marker(infl[i].style)
  {
    forall i | 0 <= i < |infl| ensures Evens(Tokens(infl))[i] == infl[i].name && Odds(Tokens(infl))[i] == Marker(infl[i].style) {
      TokensAt(infl, i);
    }
  }

  /** With listable names, no token holds the separator. */
  lemma TokensHaveNoSpace(infl: seq<Influence>)
    requires forall i :: 0 <= i < |infl| ==> ListableName(infl[i].name)
    ensures forall k :: 0 <= k < |Tokens(infl)| ==> ' ' !in Tokens(infl)[k]
  {
    forall k | 0 <= k < |Tokens(infl)| ensures ' ' !in Tokens(infl)[k] {
      var h := k / 2;
      TokensAt(infl, h);
      MarkerHasNoSpace(infl[h].style);
      if k % 2 == 0 {
        assert k == 2 * h;
      } else {
        assert k == 2 * h + 1;
      }
    }
  }

  lemma MarkerHasNoSpace(style: P.Style)
    ensures ' ' !in Marker(style)
  {
  }

  /** The joints `setupMannequinUI` builds from a listing: the host turns
      each listed name into a partial path name and reports its side label.
      An odd number of tokens leaves the last name without a presentation,
      an index error. */
  function ReadListing(listing: string, partialName: string -> string, side: string -> int): (r: Option<seq<JO.Joint>>)
    ensures r.Some? ==> |r.value| == |Evens(Split(listing, ' '))| <= |Odds(Split(listing, ' '))|
    ensures r.Some? ==> forall i :: 0 <= i < |r.value| ==> r.value[i].presentation == Odds(Split(listing, ' '))[i]
  {
    var ts := Split(listing, ' ');
    var names := Evens(ts);
    var presentations := Odds(ts);
    if |presentations| < |names| then None
    else Some(seq(|names|, i requires 0 <= i < |names| => JO.Joint(partialName(names[i]), side(names[i]), presentations[i])))
  }

  /** A listing read back gives one joint per influence, carrying its
      marker. */
  lemma ReadListingOfListing(infl: seq<Influence>, partialName: string -> string, side: string -> int)
    requires |infl| > 0 && forall i :: 0 <= i < |infl| ==> ListableName(infl[i].name)
    ensures var r := ReadListing(Listing(infl), partialName, side);
            r.Some? && |r.value| == |infl|
            && forall i :: 0 <= i < |infl| ==>
                 r.value[i] == JO.Joint(partialName(infl[i].name), side(infl[i].name), Marker(infl[i].style))
  {
    ListingRoundTrip(infl);
  }

  /** What a panel shows: rotate widgets in blue, translate widgets in
      green, or neither. */
  datatype PanelKind = RotatePanel | TranslatePanel | PlainPanel

  /** The branches of `insertJointDisplayPanel` on the presentation text. */
  function KindOf(presentation: string): PanelKind {
    if presentation == "r" then RotatePanel
    else if presentation == "t" then TranslatePanel
    else PlainPanel
  }

  /** `layoutJointDisplay` as written: every panel of a display gets the
      first character of the first joint's token. */
  function DisplayPresentationAsWritten(display: seq<JO.Joint>): (r: string)
    requires |display| > 0
    ensures |r| <= 1
  {
    Slice(display[0].presentation, 0, 1)
  }

  /** That character is always the marker, so no panel read from a listing
      ever gets rotate or translate widgets, even for a rotate joint. */
  lemma ListedDisplaysAreNeverStyled(display: seq<JO.Joint>, style: P.Style)
    requires |display| > 0 && display[0].presentation == Marker(style)
    ensures DisplayPresentationAsWritten(display) == "!"
    ensures KindOf(DisplayPresentationAsWritten(display)) == PlainPanel
  {
    assert Marker(style)[0..1] == "!";
  }

  /** The intended presentation: the first style letter after the marker,
      or nothing for a joint with no style. */
  function DisplayPresentation(display: seq<JO.Joint>): (r: string)
    requires |display| > 0
    ensures |r| <= 1
  {
    Slice(display[0].presentation, 1, 2)
  }

  /** With the marker skipped, a rotate joint gets a rotate panel, a
      translate-only joint a translate panel, and a joint with neither a
      plain one. */
  lemma StyledDisplays(display: seq<JO.Joint>, style: P.Style)
    requires |display| > 0 && display[0].presentation == Marker(style)
    ensures KindOf(DisplayPresentation(display)) == RotatePanel <==> style & P.Rotate != 0
    ensures KindOf(DisplayPresentation(display)) == TranslatePanel <==> style & P.Rotate == 0 && style & P.Translate != 0
    ensures KindOf(DisplayPresentation(display)) == PlainPanel <==> style & P.Known == 0
  {
    var m := Marker(style);
    assert m[1..] == P.ToString(style);
    if |m| >= 2 {
      assert Slice(m, 1, 2) == [P.ToString(style)[0]];
    } else {
      assert Slice(m, 1, 2) == "";
    }
  }

  /** The panel title: the name without the shared prefix, unless that
      would leave nothing. */
  function Title(name: string, prefixTrim: nat): (r: string)
    ensures |r| > 0 <==> |name| > 0
    ensures |name| > prefixTrim ==> name[..prefixTrim] + r == name && |r| == |name| - prefixTrim
    ensures |name| <= prefixTrim ==> r == name
  {
    if |name| > prefixTrim then name[prefixTrim..] else name
  }

  /** With the common prefix of all names as the trim, a title is what
      follows that prefix, or the whole name when it is the prefix itself;
      it is never empty for a non-empty name. */
  lemma TitlesFollowCommonPrefix(names: seq<string>, i: nat)
    requires i < |names|
    ensures var trim := JO.CommonPrefixLength(names);
            var prefix := names[0][..trim];
            var title := Title(names[i], trim);
            (names[i] == prefix && title == names[i])
            || (prefix + title == names[i] && 0 < |title|)
  {
    var trim := JO.CommonPrefixLength(names);
    var prefix := names[0][..trim];
    assert JO.SharedBy(names, prefix);
    assert prefix <= names[i];
    if |names[i]| == trim {
      assert names[i] == prefix;
    }
  }

  /** Which characters of a presentation token `layoutJointDisplay` reads:
      the first one, as the script is written, or the first style letter
      after the marker, as intended. */
  datatype Reading = AsWritten | Corrected

  /** The presentation text a token yields under a reading. */
  function PresentationText(reading: Reading, token: string): (r: string)
    ensures |r| <= 1
    ensures reading == AsWritten && |token| > 0 ==> r == [token[0]]
    ensures reading == Corrected && |token| > 1 ==> r == [token[1]]
    ensures reading == Corrected && |token| <= 1 ==> r == ""
  {
    if reading == AsWritten then Slice(token, 0, 1) else Slice(token, 1, 2)
  }

  /** The panel a style calls for: rotate widgets when it has ROTATE,
      translate widgets when it has TRANSLATE alone, and neither otherwise. */
  function StyleKind(style: P.Style): PanelKind {
    if style & P.Rotate != 0 then RotatePanel
    else if style & P.Translate != 0 then TranslatePanel
    else PlainPanel
  }

  /** Read as written, a marker always selects a plain panel; read as
      intended, it selects the panel of the style it was written from. */
  lemma MarkerKind(style: P.Style)
    ensures KindOf(PresentationText(AsWritten, Marker(style))) == PlainPanel
    ensures KindOf(PresentationText(Corrected, Marker(style))) == StyleKind(style)
  {
    var m := Marker(style);
    assert m[1..] == P.ToString(style);
    if |m| > 1 {
      assert m[1] == P.ToString(style)[0];
    }
  }

  /** What `insertJointDisplayPanel` sets up for one joint. */
  datatype PanelSetup = PanelSetup(name: string, title: string, kind: PanelKind)

  /** The panels of one display, all with the kind of the first joint's
      presentation. */
  function LayoutDisplay(display: seq<JO.Joint>, prefixTrim: nat, reading: Reading): (r: seq<PanelSetup>)
    requires |display| > 0
    ensures |r| == |display|
    ensures forall i :: 0 <= i < |r| ==> r[i].name == display[i].name && r[i].title == Title(display[i].name, prefixTrim)
    ensures reading == AsWritten ==>
              forall i :: 0 <= i < |r| ==> r[i].kind == KindOf(DisplayPresentationAsWritten(display))
    ensures reading == Corrected ==>
              forall i :: 0 <= i < |r| ==> r[i].kind == KindOf(DisplayPresentation(display))
  {
    seq(|display|, i requires 0 <= i < |display| =>
      PanelSetup(display[i].name, Title(display[i].name, prefixTrim),
                 KindOf(PresentationText(reading, display[0].presentation))))
  }

  /** The panels of every display, in display order. */
  function Layout(displays: seq<seq<JO.Joint>>, prefixTrim: nat, reading: Reading): seq<PanelSetup>
    requires forall k :: 0 <= k < |displays| ==> |displays[k]| > 0
    decreases |displays|
  {
    if |displays| == 0 then []
    else LayoutDisplay(displays[0], prefixTrim, reading) + Layout(displays[1..], prefixTrim, reading)
  }

  /** All joints of a display share the first one's presentation. */
  predicate SamePresentation(display: seq<JO.Joint>) {
    forall i :: 0 <= i < |display| ==> display[i].presentation == display[0].presentation
  }

  /** Panel `i` belongs to joint `i` of the flattened displays, and when
      the joints of each display share a presentation, it gets the kind
      of its own joint's presentation. */
  lemma {:induction false} LayoutFollowsJoints(displays: seq<seq<JO.Joint>>, prefixTrim: nat, reading: Reading)
    requires forall k :: 0 <= k < |displays| ==> |displays[k]| > 0 && SamePresentation(displays[k])
    ensures var ps := Layout(displays, prefixTrim, reading);
            var js := JO.Concat(displays);
            |ps| == |js|
            && forall i :: 0 <= i < |ps| ==>
                 ps[i].name == js[i].name && ps[i].title == Title(js[i].name, prefixTrim)
                 && ps[i].kind == KindOf(PresentationText(reading, js[i].presentation))
    decreases |displays|
  {
    if |displays| > 0 {
      LayoutFollowsJoints(displays[1..], prefixTrim, reading);
      var head := LayoutDisplay(displays[0], prefixTrim, reading);
      var ps := Layout(displays, prefixTrim, reading);
      var js := JO.Concat(displays);
      assert js == displays[0] + JO.Concat(displays[1..]);
      forall i | 0 <= i < |ps|
        ensures ps[i].name == js[i].name && ps[i].title == Title(js[i].name, prefixTrim)
                && ps[i].kind == KindOf(PresentationText(reading, js[i].presentation))
      {
        if i < |head| {
          assert ps[i] == head[i] && js[i] == displays[0][i];
        } else {
          assert ps[i] == Layout(displays[1..], prefixTrim, reading)[i - |head|];
          assert js[i] == JO.Concat(displays[1..])[i - |head|];
        }
      }
    }
  }

  /** Every entry `organizeJoints` produces is a non-empty display whose
      joints share a presentation. */
  lemma OrganizedDisplaysAreUniform(js: seq<JO.Joint>)
    ensures var ds := JO.OrganizeJoints(js);
            forall k :: 0 <= k < |ds| ==> |ds[k]| > 0 && SamePresentation(ds[k])
  {
    JO.OrganizedEntriesAreSound(js);
  }

  /** Laying out the organised joints gives every joint exactly one panel,
      and each panel the kind of its own joint's presentation. */
  lemma EveryJointGetsItsPanel(js: seq<JO.Joint>, prefixTrim: nat, reading: Reading)
    ensures var ds := JO.OrganizeJoints(js);
            (forall k :: 0 <= k < |ds| ==> |ds[k]| > 0)
            && var ps := Layout(ds, prefixTrim, reading);
               var flat := JO.Concat(ds);
               multiset(flat) == multiset(js) && |ps| == |flat|
               && forall i :: 0 <= i < |ps| ==>
                    ps[i].name == flat[i].name && ps[i].kind == KindOf(PresentationText(reading, flat[i].presentation))
  {
    OrganizedDisplaysAreUniform(js);
    LayoutFollowsJoints(JO.OrganizeJoints(js), prefixTrim, reading);
    JO.OrganizeKeepsEveryJoint(js);
  }

  /** A panel laid out for one of the listed influences: plain when read as
      written, and of that influence's style when read as intended. */
  predicate PanelOfListed(p: PanelSetup, infl: seq<Influence>, partialName: string -> string, reading: Reading) {
    (reading == AsWritten ==> p.kind == PlainPanel)
    && exists k :: 0 <= k < |infl| && p.name == partialName(infl[k].name)
                   && (reading == Corrected ==> p.kind == StyleKind(infl[k].style))
  }

  lemma PanelOfListedJoint(p: PanelSetup, infl: seq<Influence>, partialName: string -> string, side: string -> int,
                           reading: Reading, k: nat)
    requires k < |infl|
    requires p.name == partialName(infl[k].name)
    requires p.kind == KindOf(PresentationText(reading, Marker(infl[k].style)))
    ensures PanelOfListed(p, infl, partialName, reading)
  {
    MarkerKind(infl[k].style);
  }

  /** The panels built from a listing read back: as written, every panel is
      plain, whatever the influences' styles; with the corrected reading,
      each panel belongs to a listed influence and has the kind its style
      calls for. */
  lemma ListedLayout(infl: seq<Influence>, partialName: string -> string, side: string -> int, prefixTrim: nat,
                     reading: Reading)
    requires |infl| > 0 && forall i :: 0 <= i < |infl| ==> ListableName(infl[i].name)
    ensures var js := ReadListing(Listing(infl), partialName, side);
            js.Some?
            && var ds := JO.OrganizeJoints(js.value);
               (forall k :: 0 <= k < |ds| ==> |ds[k]| > 0)
               && var ps := Layout(ds, prefixTrim, reading);
                  |ps| == |infl| && forall i :: 0 <= i < |ps| ==> PanelOfListed(ps[i], infl, partialName, reading)
  {
    ReadListingOfListing(infl, partialName, side);
    var js := ReadListing(Listing(infl), partialName, side).value;
    EveryJointGetsItsPanel(js, prefixTrim, reading);
    var ds := JO.OrganizeJoints(js);
    var ps := Layout(ds, prefixTrim, reading);
    var flat := JO.Concat(ds);
    assert |flat| == |multiset(flat)| == |multiset(js)| == |js|;
    forall i | 0 <= i < |ps|
      ensures PanelOfListed(ps[i], infl, partialName, reading)
    {
      assert flat[i] in multiset(js);
      var k :| 0 <= k < |js| && js[k] == flat[i];
      PanelOfListedJoint(ps[i], infl, partialName, side, reading, k);
    }
  }

  /** The name `select` compares against: empty when nothing is
      selected. */
  function SelectedPanel(selection: Option<string>): string {
    match selection
    case None => ""
    case Some(name) => name
  }

  /** `select`: the panels drawn flat. */
  function FlatPanels(panels: set<string>, selection: Option<string>): (r: set<string>)
    ensures r <= panels
  {
    set p | p in panels && p == SelectedPanel(selection)
  }

  /** At most one panel is flat: the selected joint's, when it has a
      panel; clearing the selection flattens none, as no panel name is
      empty. */
  lemma AtMostOneFlatPanel(panels: set<string>, selection: Option<string>)
    ensures |FlatPanels(panels, selection)| <= 1
    ensures selection.Some? && selection.value in panels ==> FlatPanels(panels, selection) == {selection.value}
    ensures selection.Some? && selection.value !in panels ==> FlatPanels(panels, selection) == {}
    ensures "" !in panels ==> FlatPanels(panels, None) == {}
  {
    var r := FlatPanels(panels, selection);
    if SelectedPanel(selection) in panels {
      assert r == {SelectedPanel(selection)};
    } else {
      assert r == {};
    }
  }

  /** `search`: the panels shown for a search text. */
  function Visible(panels: set<string>, text: string): (r: set<string>)
    ensures r <= panels
  {
    set n | n in panels && Contains(Lower(n), Lower(text))
  }

  /** A panel is shown exactly when the search text, ignoring case, occurs
      in its name. */
  lemma SearchIsCaseInsensitiveSubstring(panels: set<string>, text: string, n: string)
    requires n in panels
    ensures n in Visible(panels, text) <==> exists i: nat :: OccursAt(Lower(n), Lower(text), i)
  {
    ContainsIff(Lower(n), Lower(text));
  }

  /** An occurrence in the name as typed is found whatever the case. */
  lemma SearchFindsExactOccurrence(panels: set<string>, text: string, n: string, i: nat)
    requires n in panels && OccursAt(n, text, i)
    ensures n in Visible(panels, text)
  {
    LowerKeepsOccurrence(n, text, i);
    ContainsIff(Lower(n), Lower(text));
  }

  /** The case of the search text does not matter; an empty text shows
      every panel; a longer text shows no more than a text it contains. */
  lemma SearchProperties(panels: set<string>, text: string, longer: string)
    ensures Visible(panels, Lower(text)) == Visible(panels, text)
    ensures Visible(panels, "") == panels
    ensures Contains(Lower(longer), Lower(text)) ==> Visible(panels, longer) <= Visible(panels, text)
  {
    LowerIdempotent(text);
    forall n | n in panels ensures Contains(Lower(n), Lower("")) {
      assert Lower("") == "";
      EmptyIsContained(Lower(n));
    }
    if Contains(Lower(longer), Lower(text)) {
      forall n | n in Visible(panels, longer) ensures n in Visible(panels, text) {
        ContainsTransitive(Lower(n), Lower(longer), Lower(text));
      }
    }
  }

  /** A refresh request: the node and which values to re-read, `r` for
      rotation and `t` for translation. */
  datatype Update = Update(node: string, pres: char)

  /** The names `panels` and `dagPaths` hold, `updateQueue`, and how many
      deferred updates are scheduled and have not yet run. */
  datatype Queue = Queue(panels: set<string>, dagPaths: set<string>, queue: seq<Update>, scheduled: nat)

  /** No request waits without a deferred update scheduled to serve it. */
  predicate Served(s: Queue) {
    |s.queue| > 0 ==> s.scheduled > 0
  }

  /** `reset`: forgets every panel and request. Updates already scheduled
      still run, on an empty queue. */
  function Reset(s: Queue): (r: Queue)
    ensures r.panels == {} && r.dagPaths == {} && r.queue == [] && Served(r)
  {
    Queue({}, {}, [], s.scheduled)
  }

  /** What the plug callback does: it raises when the plug name does not
      split into a node and an attribute, and otherwise reports whether it
      scheduled a deferred update. */
  datatype PlugOutcome = Raised | Handled(state: Queue, schedules: bool)

  /** Appending a request, and scheduling a deferred update when it is the
      only one. */
  function Enqueue(s: Queue, u: Update): (r: PlugOutcome)
    ensures r.Handled? && r.state.queue == s.queue + [u]
    ensures r.schedules <==> |s.queue| == 0
  {
    var q := s.queue + [u];
    if |q| == 1 then Handled(s.(queue := q, scheduled := s.scheduled + 1), true)
    else Handled(s.(queue := q), false)
  }

  /** `dirtyPlugCallback`. */
  function DirtyPlug(s: Queue, plugName: string): (r: PlugOutcome)
    ensures r.Raised? <==> multiset(plugName)['.'] != 1
    ensures r.Handled? ==> r.state.panels == s.panels && r.state.dagPaths == s.dagPaths
    ensures r.Handled? ==> r.state.queue == s.queue || (|r.state.queue| == |s.queue| + 1 && r.state.queue[..|s.queue|] == s.queue)
    ensures r.Handled? ==> (r.schedules <==> |s.queue| == 0 && |r.state.queue| == 1)
    ensures r.Handled? ==> r.state.scheduled == s.scheduled + (if r.schedules then 1 else 0)
    ensures r.Handled? && Served(s) ==> Served(r.state)
  {
    SplitCount(plugName, '.');
    var parts := Split(plugName, '.');
    if |parts| != 2 then Raised
    else
      var node := parts[0];
      var attr := parts[1];
      if node !in s.panels then Handled(s, false)
      else if Slice(attr, 0, 6) == "rotate" then
        assert (s.queue + [Update(node, 'r')])[..|s.queue|] == s.queue;
        Enqueue(s, Update(node, 'r'))
      else if Slice(attr, 0, 9) == "translate" then
        assert (s.queue + [Update(node, 't')])[..|s.queue|] == s.queue;
        Enqueue(s, Update(node, 't'))
      else Handled(s, false)
  }

  /** For a plug `node.attr`: a rotate attribute of a node with a panel
      queues a rotation refresh, a translate attribute a translation
      refresh, and anything else nothing. */
  lemma DirtyPlugQueues(s: Queue, node: string, attr: string)
    requires '.' !in node && '.' !in attr
    ensures var r := DirtyPlug(s, node + "." + attr);
            r.Handled?
            && (node in s.panels && "rotate" <= attr ==> r.state.queue == s.queue + [Update(node, 'r')])
            && (node in s.panels && !("rotate" <= attr) && "translate" <= attr ==>
                  r.state.queue == s.queue + [Update(node, 't')])
            && (node !in s.panels || !("rotate" <= attr || "translate" <= attr) ==> r.state.queue == s.queue)
  {
    SplitJoin([node, attr], '.');
    assert Join([node, attr], '.') == node + "." + attr;
    SliceIsPrefixTest(attr, "rotate");
    SliceIsPrefixTest(attr, "translate");
  }

  /** The requests `deferredUpdate` acts on: those for a known node. */
  function Refreshes(q: seq<Update>, dagPaths: set<string>): (r: seq<Update>)
    ensures forall u :: u in r <==> u in q && u.node in dagPaths && (u.pres == 'r' || u.pres == 't')
    decreases |q|
  {
    if |q| == 0 then []
    else
      var rest := Refreshes(q[1..], dagPaths);
      assert forall u :: u in q <==> u == q[0] || u in q[1..];
      if q[0].node in dagPaths && (q[0].pres == 'r' || q[0].pres == 't') then [q[0]] + rest else rest
  }

  /** `deferredUpdate`: one scheduled update runs, refreshes the panels
      the queue asks for, and empties the queue. */
  function DeferredUpdate(s: Queue): (r: (Queue, seq<Update>))
    requires s.scheduled > 0
    ensures r.0.queue == [] && Served(r.0)
    ensures r.0 == s.(queue := [], scheduled := s.scheduled - 1)
  {
    (s.(queue := [], scheduled := s.scheduled - 1), Refreshes(s.queue, s.dagPaths))
  }

  /** A change to a rotate attribute of a node with a panel always gets its
      panel refreshed: the request is queued and a deferred update is
      scheduled to serve it. */
  lemma RotateChangeIsShown(s: Queue, node: string, attr: string)
    requires Served(s) && node in s.panels && node in s.dagPaths
    requires '.' !in node && '.' !in attr && "rotate" <= attr
    ensures var r := DirtyPlug(s, node + "." + attr);
            r.Handled? && r.state.scheduled > 0
            && Update(node, 'r') in DeferredUpdate(r.state).1
  {
    DirtyPlugQueues(s, node, attr);
  }
}
