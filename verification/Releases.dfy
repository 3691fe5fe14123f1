// Release lines, routes and the classification of a release against the tags so far.
module Releases {
  import opened Wrappers
  import opened Decimal
  import opened Json
  import opened ReleaseTags

  // ---------- the allow-list ----------

  datatype MaintenanceLine = MaintenanceLine(line: string, branch: string, base: string)

  datatype ReleaseLines = ReleaseLines(mainLine: string, lines: seq<MaintenanceLine>)

  predicate IsLine(s: string) {
    match TakeField(s)
    case None => false
    case Some((_, rest)) => TakeNumeral(rest).Some? && TakeNumeral(rest).value.1 == []
  }

  predicate IsSha(s: string) {
    |s| == 40 && forall i :: 0 <= i < |s| ==> '0' <= s[i] <= '9' || 'a' <= s[i] <= 'f'
  }

  function BranchOf(line: string): string { "release/" + line + ".x" }

  const ENTRY_KEYS: set<string> := {"line", "branch", "base_commit"}
  const TOP_KEYS: set<string> := {"schema_version", "main_line", "maintenance_lines"}

  /** One entry, on its own. */
  function EntryOf(v: Value): Option<MaintenanceLine> {
    if !v.Obj? || v.members.Keys != ENTRY_KEYS then None
    else
      var line, branch, base := v.members["line"], v.members["branch"], v.members["base_commit"];
      if !line.Str? || !branch.Str? || !base.Str? then None
      else if !IsLine(line.text) || branch.text != BranchOf(line.text) || !IsSha(base.text) then None
      else Some(MaintenanceLine(line.text, branch.text, base.text))
  }

  /** Two numbers with a dot between them. */
  ghost predicate LineText(s: string) { exists major: nat, minor: nat :: s == Digits(major) + (['.'] + Digits(minor)) }

  lemma LineTextExactly(s: string)
    ensures IsLine(s) <==> LineText(s)
  {
    if IsLine(s) {
      var (major, rest) := TakeField(s).value;
      var (minor, end) := TakeNumeral(rest).value;
      TakeFieldExactly(s, major, rest);
      TakeNumeralExactly(rest, minor, end);
      assert rest == Digits(minor);
    }
    if major: nat, minor: nat :| s == Digits(major) + (['.'] + Digits(minor)) {
      TakeFieldExactly(s, major, Digits(minor));
      assert Digits(minor) == Digits(minor) + [];
      TakeNumeralExactly(Digits(minor), minor, []);
    }
  }

  lemma ShaExactly(s: string)
    ensures IsSha(s) <==> |s| == 40 && forall c :: c in s ==> c in TEN_DIGITS || c in SIX_LETTERS
  {
    forall c | c in s ensures c in TEN_DIGITS || c in SIX_LETTERS <==> '0' <= c <= '9' || 'a' <= c <= 'f' { HexDigitsExactly(c); }
    forall i | 0 <= i < |s| ensures s[i] in s { }
  }

  /** An entry is accepted exactly if it is a line, the branch of that name and a commit, and nothing else. */
  lemma EntryExactly(v: Value, e: MaintenanceLine)
    ensures EntryOf(v) == Some(e) <==>
              v == Obj(map["line" := Str(e.line), "branch" := Str("release/" + e.line + ".x"), "base_commit" := Str(e.base)]) &&
              e.branch == "release/" + e.line + ".x" && LineText(e.line) &&
              |e.base| == 40 && forall c :: c in e.base ==> c in TEN_DIGITS || c in SIX_LETTERS
  {
    LineTextExactly(e.line);
    ShaExactly(e.base);
    var m := map["line" := Str(e.line), "branch" := Str("release/" + e.line + ".x"), "base_commit" := Str(e.base)];
    assert m.Keys == ENTRY_KEYS;
    if EntryOf(v) == Some(e) {
      assert v.members == m;
    }
  }

  predicate DistinctLines(ls: seq<MaintenanceLine>) {
    forall i, j :: 0 <= i < j < |ls| ==> ls[i].line != ls[j].line
  }

  predicate Excludes(ls: seq<MaintenanceLine>, line: string) {
    forall i :: 0 <= i < |ls| ==> ls[i].line != line
  }

  ghost predicate Entries(items: seq<Value>, ls: seq<MaintenanceLine>) {
    |items| == |ls| && forall i :: 0 <= i < |ls| ==> EntryOf(items[i]) == Some(ls[i])
  }

  /** The text is a list of these lines: well formed, and no line twice. */
  ghost predicate Lists(data: Value, r: ReleaseLines) {
    && data.Obj? && data.members.Keys == TOP_KEYS
    && data.members["schema_version"] == Num(1)
    && data.members["main_line"] == Str(r.mainLine) && IsLine(r.mainLine)
    && data.members["maintenance_lines"].Arr? && Entries(data.members["maintenance_lines"].items, r.lines)
    && Excludes(r.lines, r.mainLine) && DistinctLines(r.lines)
  }

  /** The loop over entries, which stops at the first objection. */
  method ParseEntries(items: seq<Value>, mainLine: string) returns (r: Option<seq<MaintenanceLine>>)
    ensures r.Some? ==> Entries(items, r.value) && Excludes(r.value, mainLine) && DistinctLines(r.value)
    ensures r.None? ==> forall ls :: !(Entries(items, ls) && Excludes(ls, mainLine) && DistinctLines(ls))
  {
    var parsed: seq<MaintenanceLine> := [];
    var seen: set<string> := {};
    var i := 0;
    while i < |items|
      invariant 0 <= i <= |items|
      invariant Entries(items[..i], parsed) && Excludes(parsed, mainLine) && DistinctLines(parsed)
      invariant seen == set j | 0 <= j < i :: parsed[j].line
    {
      var entry := EntryOf(items[i]);
      if entry.None? { return None; }
      var line := entry.value.line;
      if line == mainLine || line in seen {
        forall ls | Entries(items, ls) ensures !(Excludes(ls, mainLine) && DistinctLines(ls)) {
          Objection(items, i, parsed, mainLine, ls);
        }
        return None;
      }
      EntriesSnoc(items, i, parsed, entry.value);
      seen := seen + {line};
      parsed := parsed + [entry.value];
      i := i + 1;
    }
    assert items[..i] == items;
    return Some(parsed);
  }

  lemma EntriesSnoc(items: seq<Value>, i: nat, parsed: seq<MaintenanceLine>, e: MaintenanceLine)
    requires i < |items| && Entries(items[..i], parsed) && EntryOf(items[i]) == Some(e)
    ensures Entries(items[..i + 1], parsed + [e])
  {
    assert forall j :: 0 <= j < i ==> items[..i][j] == items[j];
  }

  /** An entry on the main line, or on a line already seen, spoils every reading of the list. */
  lemma Objection(items: seq<Value>, i: nat, parsed: seq<MaintenanceLine>, mainLine: string, ls: seq<MaintenanceLine>)
    requires i < |items| && Entries(items[..i], parsed) && Entries(items, ls) && EntryOf(items[i]).Some?
    requires var line := EntryOf(items[i]).value.line;
             line == mainLine || exists j :: 0 <= j < i && parsed[j].line == line
    ensures !(Excludes(ls, mainLine) && DistinctLines(ls))
  {
    var line := EntryOf(items[i]).value.line;
    if line != mainLine {
      var j :| 0 <= j < i && parsed[j].line == line;
      assert items[..i][j] == items[j];
      assert ls[j] == parsed[j];
    }
  }

  /** `parse_release_lines`, given what its text denotes: it accepts exactly the lists. */
  method ParseReleaseLines(data: Value) returns (r: Option<ReleaseLines>)
    ensures forall x :: r == Some(x) <==> Lists(data, x)
  {
    if !data.Obj? || data.members.Keys != TOP_KEYS { return None; }
    var version, main, entries := data.members["schema_version"], data.members["main_line"], data.members["maintenance_lines"];
    if version != Num(1) { return None; }
    if !main.Str? || !IsLine(main.text) { return None; }
    if !entries.Arr? { return None; }
    var lines := ParseEntries(entries.items, main.text);
    if lines.None? { return None; }
    r := Some(ReleaseLines(main.text, lines.value));
    forall x | Lists(data, x) ensures x == r.value {
      assert x.lines == lines.value;
    }
  }

  // ---------- routes ----------

  datatype Route = Main | Maintenance(branch: string, base: string)

  function Find(ls: seq<MaintenanceLine>, line: string): Option<MaintenanceLine> {
    if ls == [] then None else if ls[0].line == line then Some(ls[0]) else Find(ls[1..], line)
  }

  /** `select_release_route`: None when it raises. */
  function SelectRoute(t: Tag, main: ReleaseLines, tree: ReleaseLines): Option<Route> {
    if main.mainLine != tree.mainLine then None
    else if LineOf(t) == main.mainLine then Some(Main)
    else
      var entry := Find(main.lines, LineOf(t));
      if entry.None? || Find(tree.lines, LineOf(t)) != entry then None
      else Some(Maintenance(entry.value.branch, entry.value.base))
  }

  lemma {:induction false} FindExactly(ls: seq<MaintenanceLine>, e: MaintenanceLine)
    requires DistinctLines(ls)
    ensures Find(ls, e.line) == Some(e) <==> e in ls
    decreases |ls|
  {
    if ls != [] {
      FindExactly(ls[1..], e);
      if e in ls && ls[0].line == e.line {
        var i :| 0 <= i < |ls| && ls[i] == e;
      }
    }
  }

  /** The main route is taken exactly for the main line that both lists name. */
  lemma MainRouteExactly(t: Tag, main: ReleaseLines, tree: ReleaseLines)
    ensures SelectRoute(t, main, tree) == Some(Main) <==> main.mainLine == tree.mainLine && LineOf(t) == tree.mainLine
  {
  }

  /** A maintenance route is taken exactly for an entry that both lists share, off the main line. */
  lemma RouteExactly(t: Tag, main: ReleaseLines, tree: ReleaseLines, branch: string, base: string)
    requires DistinctLines(main.lines) && DistinctLines(tree.lines)
    ensures SelectRoute(t, main, tree) == Some(Maintenance(branch, base)) <==>
              main.mainLine == tree.mainLine && LineOf(t) != main.mainLine &&
              MaintenanceLine(LineOf(t), branch, base) in main.lines && MaintenanceLine(LineOf(t), branch, base) in tree.lines
  {
    var e := MaintenanceLine(LineOf(t), branch, base);
    FindExactly(main.lines, e);
    FindExactly(tree.lines, e);
    FindLine(main.lines, LineOf(t));
  }

  lemma {:induction false} FindLine(ls: seq<MaintenanceLine>, line: string)
    ensures Find(ls, line).Some? ==> Find(ls, line).value.line == line
    decreases |ls|
  {
    if ls != [] { FindLine(ls[1..], line); }
  }

  // ---------- classification ----------

  /** The stable release tags of a repository other than this one. */
  predicate StableOther(names: seq<string>, t: Tag, o: Tag) { o in ReleaseTagsOf(names) && o != t && Stable(o) }

  /** The highest patch among stable tags of a line; `max(..., default=None)`. */
  function NewestPatch(tags: seq<Tag>, t: Tag): Option<nat> {
    if tags == [] then None
    else
      var k := |tags| - 1;
      var rest := NewestPatch(tags[..k], t);
      if tags[k] != t && Stable(tags[k]) && LineOf(tags[k]) == LineOf(t) && (rest.None? || tags[k].patch > rest.value)
      then Some(tags[k].patch) else rest
  }

  lemma {:induction false} NewestPatchExactly(tags: seq<Tag>, t: Tag)
    ensures NewestPatch(tags, t).Some? && t.patch <= NewestPatch(tags, t).value <==>
              exists o :: o in tags && o != t && Stable(o) && LineOf(o) == LineOf(t) && t.patch <= o.patch
  {
    if tags != [] {
      var k := |tags| - 1;
      NewestPatchExactly(tags[..k], t);
      assert tags == tags[..k] + [tags[k]];
    }
  }

  datatype Decision = Decision(prerelease: bool, latest: bool)

  /** `classify_release`: None when it raises. */
  function Classify(names: seq<string>, t: Tag): Option<Decision> {
    var tags := ReleaseTagsOf(names);
    if Stable(t) then
      var newest := NewestPatch(tags, t);
      if newest.Some? && t.patch <= newest.value then None
      else Some(Decision(false, forall o | o in tags :: o != t && Stable(o) ==> Less(VersionOf(o), VersionOf(t))))
    else if exists o | o in tags :: o != t && Stable(o) && VersionOf(o) == VersionOf(t) then None
    else Some(Decision(true, false))
  }

  /** What an accepted stable release has proved about the stable tags there are. */
  lemma ClassifyExactly(names: seq<string>, t: Tag)
    ensures Stable(t) ==>
              (Classify(names, t).Some? <==>
                 forall o :: StableOther(names, t, o) && o.major == t.major && o.minor == t.minor ==> o.patch < t.patch)
    ensures !Stable(t) ==>
              (Classify(names, t).Some? <==> forall o :: StableOther(names, t, o) ==> VersionOf(o) != VersionOf(t))
    ensures Classify(names, t).Some? ==>
              (Classify(names, t).value.latest <==>
                 Stable(t) && forall o :: StableOther(names, t, o) ==> Less(VersionOf(o), VersionOf(t)))
  {
    NewestPatchExactly(ReleaseTagsOf(names), t);
    forall o ensures LineOf(o) == LineOf(t) <==> o.major == t.major && o.minor == t.minor { LineExactly(o, t); }
  }

  // ---------- histories ----------

  /** A release that was accepted, with the names of all tags in the repository then. */
  datatype Release = Release(tag: Tag, names: seq<string>)

  predicate Flagged(r: Release) { Classify(r.names, r.tag).Some? && Classify(r.names, r.tag).value.latest }

  /** Each release was accepted in a repository that held the tags of all earlier ones. */
  ghost predicate History(h: seq<Release>) {
    && (forall k :: 0 <= k < |h| ==> Classify(h[k].names, h[k].tag).Some?)
    && (forall i, k :: 0 <= i < k < |h| ==> Spell(h[i].tag) in h[k].names)
  }

  lemma EarlierIsOther(h: seq<Release>, i: nat, k: nat)
    requires History(h) && i < k < |h| && Stable(h[i].tag) && h[i].tag != h[k].tag
    ensures StableOther(h[k].names, h[k].tag, h[i].tag)
  {
    ReleaseTagsExactly(h[k].names, h[i].tag);
  }

  /** Within a line, stable patches strictly increase; only the same tag can come again. */
  lemma PatchesIncrease(h: seq<Release>, i: nat, k: nat)
    requires History(h) && i < k < |h| && Stable(h[i].tag) && Stable(h[k].tag) && LineOf(h[i].tag) == LineOf(h[k].tag)
    ensures h[i].tag.patch < h[k].tag.patch || h[i].tag == h[k].tag
  {
    LineExactly(h[i].tag, h[k].tag);
    ClassifyExactly(h[k].names, h[k].tag);
    if h[i].tag != h[k].tag { EarlierIsOther(h, i, k); }
  }

  /** No prerelease of a version follows its stable release. */
  lemma NoLatePrerelease(h: seq<Release>, i: nat, k: nat)
    requires History(h) && i < k < |h| && Stable(h[i].tag) && !Stable(h[k].tag)
    ensures VersionOf(h[i].tag) != VersionOf(h[k].tag)
  {
    ClassifyExactly(h[k].names, h[k].tag);
    EarlierIsOther(h, i, k);
  }

  /** A release flagged latest is above every stable release before it. */
  lemma FlaggedIsAbove(h: seq<Release>, i: nat, k: nat)
    requires History(h) && i < k < |h| && Stable(h[i].tag) && Flagged(h[k])
    ensures Less(VersionOf(h[i].tag), VersionOf(h[k].tag)) || h[i].tag == h[k].tag
  {
    ClassifyExactly(h[k].names, h[k].tag);
    if h[i].tag != h[k].tag { EarlierIsOther(h, i, k); }
  }

  /** Versions flagged latest strictly increase. */
  lemma LatestIncreases(h: seq<Release>, i: nat, k: nat)
    requires History(h) && i < k < |h| && Flagged(h[i]) && Flagged(h[k])
    ensures Less(VersionOf(h[i].tag), VersionOf(h[k].tag)) || h[i].tag == h[k].tag
  {
    ClassifyExactly(h[i].names, h[i].tag);
    FlaggedIsAbove(h, i, k);
  }

  // ---------- the release carrying the latest flag ----------

  /** The version most recently flagged latest, after `n` releases. */
  function LastFlagged(h: seq<Release>, n: nat): Option<Version>
    requires n <= |h|
  {
    if n == 0 then None
    else if Flagged(h[n - 1]) then Some(VersionOf(h[n - 1].tag))
    else LastFlagged(h, n - 1)
  }

  predicate Above(v: Version, bound: Option<Version>) { bound.None? || Less(bound.value, v) }

  /** The highest stable version among the first `n` releases. */
  function Highest(h: seq<Release>, n: nat): Option<Version>
    requires n <= |h|
  {
    if n == 0 then None
    else if Stable(h[n - 1].tag) && Above(VersionOf(h[n - 1].tag), Highest(h, n - 1)) then Some(VersionOf(h[n - 1].tag))
    else Highest(h, n - 1)
  }

  lemma {:induction false} HighestIsMaximum(h: seq<Release>, n: nat, i: nat)
    requires i < n <= |h| && Stable(h[i].tag)
    ensures Highest(h, n).Some? && !Less(Highest(h, n).value, VersionOf(h[i].tag))
  {
    if i < n - 1 { HighestIsMaximum(h, n - 1, i); }
  }

  lemma {:induction false} HighestWasReleased(h: seq<Release>, n: nat) returns (i: nat)
    requires n <= |h| && Highest(h, n).Some?
    ensures i < n && Stable(h[i].tag) && VersionOf(h[i].tag) == Highest(h, n).value
  {
    if Stable(h[n - 1].tag) && Above(VersionOf(h[n - 1].tag), Highest(h, n - 1)) {
      i := n - 1;
    } else {
      i := HighestWasReleased(h, n - 1);
    }
  }

  /**
   * A new highest stable version that goes unflagged: some stable tag was in the
   * repository that is as high, though it was never released.
   */
  ghost predicate Shadowed(h: seq<Release>, k: nat)
    requires k < |h|
  {
    Stable(h[k].tag) && Above(VersionOf(h[k].tag), Highest(h, k)) &&
    exists o :: StableOther(h[k].names, h[k].tag, o) && !Less(VersionOf(o), VersionOf(h[k].tag))
  }

  /** What is flagged is the highest stable version from then on. */
  lemma FlaggedIsHighest(h: seq<Release>, k: nat)
    requires History(h) && k < |h| && Flagged(h[k])
    ensures Highest(h, k + 1) == Some(VersionOf(h[k].tag))
  {
    ClassifyExactly(h[k].names, h[k].tag);
    if Highest(h, k).Some? {
      var i := HighestWasReleased(h, k);
      FlaggedIsAbove(h, i, k);
    }
  }

  /** A stable release goes unflagged because of some other stable tag. */
  lemma UnflaggedBecause(h: seq<Release>, k: nat)
    requires History(h) && k < |h| && Stable(h[k].tag)
    ensures !Flagged(h[k]) <==>
              exists o :: StableOther(h[k].names, h[k].tag, o) && !Less(VersionOf(o), VersionOf(h[k].tag))
  {
    ClassifyExactly(h[k].names, h[k].tag);
  }

  lemma FlaggedIsStable(h: seq<Release>, k: nat)
    requires k < |h| && Flagged(h[k])
    ensures Stable(h[k].tag)
  {
  }

  /** What one more release does to the two versions. */
  lemma OneMore(h: seq<Release>, k: nat)
    requires History(h) && k < |h| && LastFlagged(h, k) == Highest(h, k)
    ensures LastFlagged(h, k + 1) == Highest(h, k + 1) <==> !Shadowed(h, k)
  {
    if Flagged(h[k]) {
      FlaggedIsHighest(h, k);
      FlaggedIsStable(h, k);
      UnflaggedBecause(h, k);
    } else if Stable(h[k].tag) {
      UnflaggedBecause(h, k);
      if Above(VersionOf(h[k].tag), Highest(h, k)) { UnchangedIsNotAbove(VersionOf(h[k].tag), Highest(h, k)); }
    }
  }

  lemma UnchangedIsNotAbove(v: Version, bound: Option<Version>)
    requires Above(v, bound)
    ensures bound != Some(v)
  {
  }

  /** A property that every step keeps unless something happens holds throughout iff nothing does. */
  lemma {:induction false} ThroughoutExactly(length: nat, holds: nat -> bool, happens: nat -> bool)
    requires holds(0) && forall k :: 0 <= k < length && holds(k) ==> (holds(k + 1) <==> !happens(k))
    ensures (forall n :: 0 <= n <= length ==> holds(n)) <==> (forall k :: 0 <= k < length ==> !happens(k))
  {
    if length > 0 {
      ThroughoutExactly(length - 1, holds, happens);
      if forall n :: 0 <= n <= length ==> holds(n) { assert holds(length - 1) && holds(length - 1 + 1); }
      if forall k :: 0 <= k < length ==> !happens(k) { assert holds(length - 1); }
    }
  }

  /** The release most recently flagged latest carries the highest stable version. */
  predicate Agree(h: seq<Release>, n: nat) { n <= |h| && LastFlagged(h, n) == Highest(h, n) }

  /**
   * After every release the most recent latest flag is on the highest stable version
   * - exactly if no release is shadowed by a stable tag that was pushed but not released.
   */
  lemma LatestIsHighestExactly(h: seq<Release>)
    requires History(h)
    ensures (forall n :: 0 <= n <= |h| ==> Agree(h, n)) <==> (forall k :: 0 <= k < |h| ==> !Shadowed(h, k))
  {
    var holds, happens := (n: nat) => Agree(h, n), Shadows(h);
    forall k: nat | 0 <= k < |h| && holds(k)
      ensures holds(k + 1) <==> !happens(k)
    {
      OneMore(h, k);
    }
    ThroughoutExactly(|h|, holds, happens);
    assert forall n: nat :: holds(n) <==> Agree(h, n);
    assert forall k: nat | k < |h| :: happens(k) <==> Shadowed(h, k);
  }

  ghost function Shadows(h: seq<Release>): nat -> bool { (k: nat) => k < |h| && Shadowed(h, k) }

  /** If every other stable tag in the repository is that of a release, none is shadowed. */
  lemma ReleasedTagsDoNotShadow(h: seq<Release>, k: nat)
    requires History(h) && k < |h|
    requires forall o :: StableOther(h[k].names, h[k].tag, o) ==> exists i :: 0 <= i < k && h[i].tag == o
    ensures !Shadowed(h, k)
  {
    if Shadowed(h, k) {
      var o :| StableOther(h[k].names, h[k].tag, o) && !Less(VersionOf(o), VersionOf(h[k].tag));
      var i :| 0 <= i < k && h[i].tag == o;
      HighestIsMaximum(h, k, i);
    }
  }

  /** A pushed tag that was never released can take the flag from the highest release. */
  lemma UnreleasedTagShadows()
    ensures exists h :: History(h) && |h| == 1 && Highest(h, 1) == Some(Version(1, 0, 0)) && LastFlagged(h, 1) == None
  {
    var t, o := Tag(1, 0, 0, None), Tag(9, 9, 9, None);
    var h := [Release(t, [Spell(t), Spell(o)])];
    ClassifyExactly(h[0].names, t);
    ReleaseTagsExactly(h[0].names, o);
    forall x | StableOther(h[0].names, t, x) ensures x == o {
      ReleaseTagsExactly(h[0].names, x);
      ParseTagExactly(Spell(x), x);
      ParseTagExactly(Spell(x), o);
      ParseTagExactly(Spell(x), t);
    }
    assert StableOther(h[0].names, t, o) && !Less(VersionOf(o), VersionOf(t));
    assert History(h);
    UnflaggedBecause(h, 0);
    assert LastFlagged(h, 0) == None && Highest(h, 0) == None;
  }
}
