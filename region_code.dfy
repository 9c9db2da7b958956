/** The region-code pattern `^[A-Z]{2}(?:-[A-Z0-9]+)*$` that
    `validateRegionCode` tests its normalised input against, given three
    ways: as a declarative grammar (two capitals, then `-`-led groups), as a
    left-to-right recogniser that reads each character once, and as a list
    of shape conditions on positions. All three are proved to agree. */
module RegionCode {

  predicate IsLetter(c: char) {
    'A' <= c <= 'Z'
  }

  predicate IsAlnum(c: char) {
    IsLetter(c) || '0' <= c <= '9'
  }

  // ---------------------------------------------------------------------
  // The grammar

  /** One `-SEG` group: a dash followed by one or more capitals or digits. */
  predicate IsGroup(g: string) {
    |g| >= 2 && g[0] == '-' && forall j :: 1 <= j < |g| ==> IsAlnum(g[j])
  }

  predicate AllGroups(gs: seq<string>) {
    forall k :: 0 <= k < |gs| ==> IsGroup(gs[k])
  }

  function Concat(gs: seq<string>): string {
    if gs == [] then [] else gs[0] + Concat(gs[1..])
  }

  /** `v` is a two-letter country code followed by zero or more groups. */
  ghost predicate RegionPattern(v: string) {
    && |v| >= 2 && IsLetter(v[0]) && IsLetter(v[1])
    && exists gs :: AllGroups(gs) && v[2..] == Concat(gs)
  }

  // ---------------------------------------------------------------------
  // The recogniser

  /** Where the recogniser stands: before the first letter, after one
      letter, after the country code, after a dash, inside a group. */
  datatype ScanState = Start | OneLetter | Country | Dash | Segment

  /** Whether the input from position `i` on is accepted from state `st`. An
      accepted remainder never ends in a dash, and from a state that still
      needs a character (before or inside the country code, after a dash) it
      is not empty. */
  function Scan(st: ScanState, v: string, i: nat): (r: bool)
    requires i <= |v|
    ensures r && i < |v| ==> v[|v| - 1] != '-'
    ensures r && (st == Start || st == OneLetter || st == Dash) ==> i < |v|
    decreases |v| - i
  {
    if i == |v| then st == Country || st == Segment
    else
      var c := v[i];
      match st
      case Start => IsLetter(c) && Scan(OneLetter, v, i + 1)
      case OneLetter => IsLetter(c) && Scan(Country, v, i + 1)
      case Country => c == '-' && Scan(Dash, v, i + 1)
      case Dash => IsAlnum(c) && Scan(Segment, v, i + 1)
      case Segment =>
        if IsAlnum(c) then Scan(Segment, v, i + 1) else c == '-' && Scan(Dash, v, i + 1)
  }

  /** `/^[A-Z]{2}(?:-[A-Z0-9]+)*$/.test(v)`: an accepted string starts with
      two capitals and does not end in a dash. */
  function Matches(v: string): (r: bool)
    ensures r ==> |v| >= 2 && IsLetter(v[0]) && IsLetter(v[1]) && v[|v| - 1] != '-'
  {
    assert Scan(Start, v, 0) ==> |v| >= 2 && IsLetter(v[0]) && IsLetter(v[1]) by {
      if |v| >= 1 && Scan(Start, v, 0) {
        assert Scan(OneLetter, v, 1);
      }
    }
    Scan(Start, v, 0)
  }

  // ---------------------------------------------------------------------
  // The shape conditions

  /** Every character from `i` on is a capital, a digit or a dash; no two
      dashes are adjacent; and the input does not end in a dash. */
  predicate GroupTail(v: string, i: nat) {
    && (forall k :: i <= k < |v| ==> IsAlnum(v[k]) || v[k] == '-')
    && (forall k :: i <= k < |v| - 1 ==> v[k] == '-' ==> v[k + 1] != '-')
    && (i < |v| ==> v[|v| - 1] != '-')
  }

  /** Two capitals, then either nothing or a dash that starts a group tail. */
  predicate WellShaped(v: string) {
    && |v| >= 2 && IsLetter(v[0]) && IsLetter(v[1])
    && (|v| > 2 ==> v[2] == '-')
    && GroupTail(v, 2)
  }

  // ---------------------------------------------------------------------
  // Recogniser and shape conditions agree

  /** Inside a group, the recogniser accepts exactly a group tail. */
  lemma {:induction false} SegmentIsGroupTail(v: string, i: nat)
    requires i <= |v|
    ensures Scan(Segment, v, i) <==> GroupTail(v, i)
    decreases |v| - i
  {
    if i < |v| {
      if IsAlnum(v[i]) {
        SegmentIsGroupTail(v, i + 1);
      } else if v[i] == '-' && i + 1 < |v| {
        SegmentIsGroupTail(v, i + 2);
        if GroupTail(v, i) {
          assert IsAlnum(v[i + 1]);
        }
      }
    }
  }

  /** The recogniser reads the country code first, then the first dash and
      the character after it. */
  lemma MatchesUnfold(v: string)
    ensures Matches(v) <==> |v| >= 2 && IsLetter(v[0]) && IsLetter(v[1]) && Scan(Country, v, 2)
    ensures |v| >= 2 ==>
      (Scan(Country, v, 2) <==>
        |v| == 2 || (v[2] == '-' && |v| > 3 && IsAlnum(v[3]) && Scan(Segment, v, 4)))
  {
    if |v| >= 1 {
      assert Scan(Start, v, 0) == (IsLetter(v[0]) && Scan(OneLetter, v, 1));
    }
    if |v| >= 2 {
      assert Scan(OneLetter, v, 1) == (IsLetter(v[1]) && Scan(Country, v, 2));
    }
    if |v| >= 4 {
      assert Scan(Dash, v, 3) == (IsAlnum(v[3]) && Scan(Segment, v, 4));
    }
  }

  /** The recogniser accepts exactly the well-shaped inputs. */
  lemma MatchesIffWellShaped(v: string)
    ensures Matches(v) <==> WellShaped(v)
  {
    MatchesUnfold(v);
    if |v| >= 4 {
      SegmentIsGroupTail(v, 4);
      if WellShaped(v) {
        assert v[3] != '-';
      }
    }
  }

  // ---------------------------------------------------------------------
  // Recogniser and grammar agree

  /** The first position at or after `j` that does not hold a capital or a
      digit (`|v|` when there is none). */
  function AlnumEnd(v: string, j: nat): (e: nat)
    requires j <= |v|
    ensures j <= e <= |v|
    ensures forall k :: j <= k < e ==> IsAlnum(v[k])
    ensures e < |v| ==> !IsAlnum(v[e])
    decreases |v| - j
  {
    if j < |v| && IsAlnum(v[j]) then AlnumEnd(v, j + 1) else j
  }

  /** A run of capitals and digits leaves the recogniser inside its group. */
  lemma {:induction false} SkipRun(v: string, i: nat, j: nat)
    requires i <= j <= |v|
    requires forall k :: i <= k < j ==> IsAlnum(v[k])
    ensures Scan(Segment, v, i) == Scan(Segment, v, j)
    decreases j - i
  {
    if i < j {
      SkipRun(v, i + 1, j);
    }
  }

  /** Acceptance from position `i` depends only on the input from `i` on. */
  lemma {:induction false} ScanSuffix(st: ScanState, v: string, i: nat)
    requires i <= |v|
    ensures Scan(st, v, i) == Scan(st, v[i..], 0)
    decreases |v| - i
  {
    if i < |v| {
      var w := v[i..];
      assert w[0] == v[i] && v[i + 1..] == w[1..];
      forall st' ensures Scan(st', v, i + 1) == Scan(st', w, 1) {
        ScanSuffix(st', v, i + 1);
        ScanSuffix(st', w, 1);
      }
    } else {
      assert v[i..] == [];
    }
  }

  /** Any sequence of groups is accepted after the country code and inside
      a group alike. */
  lemma {:induction false} GroupsAccepted(gs: seq<string>)
    requires AllGroups(gs)
    ensures Scan(Country, Concat(gs), 0) && Scan(Segment, Concat(gs), 0)
  {
    if gs != [] {
      var g, rest := gs[0], Concat(gs[1..]);
      var t := g + rest;
      assert AllGroups(gs[1..]) by {
        forall k | 0 <= k < |gs| - 1 ensures IsGroup(gs[1..][k]) {
          assert gs[1..][k] == gs[k + 1];
        }
      }
      GroupsAccepted(gs[1..]);
      assert t[0] == '-' && IsAlnum(t[1]);
      SkipRun(t, 2, |g|);
      ScanSuffix(Segment, t, |g|);
      assert t[|g|..] == rest;
    }
  }

  /** The groups an accepted input splits into, from position `i` on. */
  ghost function GroupsFrom(v: string, i: nat): seq<string>
    requires i <= |v|
    decreases |v| - i
  {
    if i == |v| then []
    else
      var e := AlnumEnd(v, i + 1);
      [v[i..e]] + GroupsFrom(v, e)
  }

  /** What the recogniser accepts after the country code is a sequence of
      groups. */
  lemma {:induction false} AcceptedSplits(v: string, i: nat)
    requires i <= |v| && Scan(Country, v, i)
    ensures AllGroups(GroupsFrom(v, i)) && Concat(GroupsFrom(v, i)) == v[i..]
    decreases |v| - i
  {
    if i < |v| {
      var e := AlnumEnd(v, i + 1);
      SkipRun(v, i + 2, e);
      assert Scan(Country, v, e);
      AcceptedSplits(v, e);
      var gs := GroupsFrom(v, i);
      assert gs == [v[i..e]] + GroupsFrom(v, e);
      assert gs[1..] == GroupsFrom(v, e);
      assert IsGroup(v[i..e]);
      assert v[i..] == v[i..e] + v[e..];
    }
  }

  /** The recogniser accepts exactly the inputs the grammar derives. */
  lemma MatchesIffPattern(v: string)
    ensures Matches(v) <==> RegionPattern(v)
  {
    MatchesUnfold(v);
    if |v| >= 2 && IsLetter(v[0]) && IsLetter(v[1]) {
      ScanSuffix(Country, v, 2);
      if Matches(v) {
        AcceptedSplits(v, 2);
        assert AllGroups(GroupsFrom(v, 2)) && v[2..] == Concat(GroupsFrom(v, 2));
      }
      if RegionPattern(v) {
        var gs :| AllGroups(gs) && v[2..] == Concat(gs);
        GroupsAccepted(gs);
      }
    }
  }

  // ---------------------------------------------------------------------
  // Consequences

  /** What every accepted code looks like: two capitals first, length 2 or
      at least 4, only capitals, digits and dashes, never two dashes in a
      row, never a dash at the end. */
  lemma AcceptedShape(v: string)
    requires Matches(v)
    ensures |v| == 2 || |v| >= 4
    ensures IsLetter(v[0]) && IsLetter(v[1])
    ensures forall k :: 0 <= k < |v| ==> IsAlnum(v[k]) || v[k] == '-'
    ensures forall k :: 0 <= k < |v| - 1 ==> !(v[k] == '-' && v[k + 1] == '-')
    ensures v[|v| - 1] != '-'
  {
    MatchesIffWellShaped(v);
  }

  /** The examples of the comment at src/index.js:21, and a few more. */
  lemma Examples()
    ensures Matches("US-NEISO") && Matches("CM") && Matches("DE") && Matches("US-CAL-CISO")
    ensures !Matches("USA") && !Matches("US-") && !Matches("") && !Matches("US--X")
    ensures !Matches("cm") && !Matches("U") && !Matches("-US")
  {
  }
}
