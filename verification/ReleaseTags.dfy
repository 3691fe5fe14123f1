// Release tags and release lines: the grammar, and the tag list of a repository.
module ReleaseTags {
  import opened Wrappers
  import opened Decimal
  import opened KeyOrder

  datatype Kind = Alpha | Beta | Candidate

  datatype Tag = Tag(major: nat, minor: nat, patch: nat, pre: Option<(Kind, nat)>)

  function KindText(k: Kind): string {
    match k
    case Alpha => "a"
    case Beta => "b"
    case Candidate => "rc"
  }

  function PreText(pre: Option<(Kind, nat)>): string {
    match pre
    case None => ""
    case Some((k, n)) => KindText(k) + Digits(n)
  }

  function Spell(t: Tag): string {
    ['v'] + (Digits(t.major) + (['.'] + (Digits(t.minor) + (['.'] + (Digits(t.patch) + PreText(t.pre))))))
  }

  /** A numeral that takes all the digits there are. */
  function TakeNumeral(s: string): Option<(nat, string)> {
    var n := DigitRun(s);
    if Numeral(s[..n]) then Some((NumberOf(s[..n]), s[n..])) else None
  }

  predicate NoDigitFirst(s: string) { s == [] || !IsDigit(s[0]) }

  lemma TakeNumeralExactly(s: string, n: nat, rest: string)
    ensures TakeNumeral(s) == Some((n, rest)) <==> s == Digits(n) + rest && NoDigitFirst(rest)
  {
    var k := DigitRun(s);
    assert s == s[..k] + s[k..];
    if TakeNumeral(s) == Some((n, rest)) {
      NumeralRoundTrip(s[..k]);
    }
    if s == Digits(n) + rest && NoDigitFirst(rest) {
      DigitsRoundTrip(n);
      DigitRunStops(Digits(n), rest);
      assert s[..|Digits(n)|] == Digits(n) && s[|Digits(n)|..] == rest;
    }
  }

  /** A numeral and the dot after it. */
  function TakeField(s: string): Option<(nat, string)> {
    match TakeNumeral(s)
    case None => None
    case Some((n, rest)) => if rest != [] && rest[0] == '.' then Some((n, rest[1..])) else None
  }

  lemma TakeFieldExactly(s: string, n: nat, rest: string)
    ensures TakeField(s) == Some((n, rest)) <==> s == Digits(n) + (['.'] + rest)
  {
    TakeNumeralExactly(s, n, ['.'] + rest);
    if TakeField(s) == Some((n, rest)) {
      var tail := TakeNumeral(s).value.1;
      assert tail == ['.'] + rest;
    }
    if s == Digits(n) + (['.'] + rest) { assert (['.'] + rest)[1..] == rest; }
  }

  /** What follows the patch number. */
  function TakePre(s: string): Option<Option<(Kind, nat)>> {
    if s == [] then Some(None)
    else if s[0] == 'a' then TakeLast(Alpha, s[1..])
    else if s[0] == 'b' then TakeLast(Beta, s[1..])
    else if |s| >= 2 && s[..2] == "rc" then TakeLast(Candidate, s[2..])
    else None
  }

  function TakeLast(k: Kind, s: string): Option<Option<(Kind, nat)>> {
    match TakeNumeral(s)
    case Some((n, rest)) => if rest == [] then Some(Some((k, n))) else None
    case None => None
  }

  lemma TakeLastExactly(k: Kind, s: string, pre: Option<(Kind, nat)>)
    ensures TakeLast(k, s) == Some(pre) <==> pre.Some? && pre.value.0 == k && s == Digits(pre.value.1)
  {
    if TakeLast(k, s) == Some(pre) {
      TakeNumeralExactly(s, pre.value.1, []);
      assert Digits(pre.value.1) + [] == Digits(pre.value.1);
    }
    if pre.Some? && s == Digits(pre.value.1) {
      assert s == Digits(pre.value.1) + [];
      TakeNumeralExactly(s, pre.value.1, []);
    }
  }

  lemma PreTextTaken(pre: Option<(Kind, nat)>)
    ensures TakePre(PreText(pre)) == Some(pre)
  {
    match pre
    case None =>
    case Some((k, n)) =>
      var d := Digits(n);
      assert d == PreText(pre)[|KindText(k)|..];
      TakeLastExactly(k, d, pre);
  }

  lemma TakenIsPreText(s: string, pre: Option<(Kind, nat)>)
    requires TakePre(s) == Some(pre)
    ensures s == PreText(pre)
  {
    if s == [] {
    } else if s[0] == 'a' {
      TakeLastExactly(Alpha, s[1..], pre);
      assert s == "a" + s[1..];
    } else if s[0] == 'b' {
      TakeLastExactly(Beta, s[1..], pre);
      assert s == "b" + s[1..];
    } else {
      TakeLastExactly(Candidate, s[2..], pre);
      assert s == s[..2] + s[2..];
    }
  }

  lemma TakePreExactly(s: string, pre: Option<(Kind, nat)>)
    ensures TakePre(s) == Some(pre) <==> s == PreText(pre)
  {
    PreTextTaken(pre);
    if TakePre(s) == Some(pre) { TakenIsPreText(s, pre); }
  }

  lemma PreTextNoDigit(pre: Option<(Kind, nat)>)
    ensures NoDigitFirst(PreText(pre))
  {
  }

  /** The patch number and what follows it. */
  function TakePatch(s: string): Option<(nat, Option<(Kind, nat)>)> {
    match TakeNumeral(s)
    case None => None
    case Some((patch, suffix)) =>
      var pre := TakePre(suffix);
      if pre.None? then None else Some((patch, pre.value))
  }

  lemma TakePatchExactly(s: string, patch: nat, pre: Option<(Kind, nat)>)
    ensures TakePatch(s) == Some((patch, pre)) <==> s == Digits(patch) + PreText(pre)
  {
    PreTextNoDigit(pre);
    TakePreExactly(PreText(pre), pre);
    TakeNumeralExactly(s, patch, PreText(pre));
    if TakePatch(s) == Some((patch, pre)) { TakePreExactly(TakeNumeral(s).value.1, pre); }
  }

  /** The minor number and what follows it. */
  function TakeMinor(s: string): Option<(nat, nat, Option<(Kind, nat)>)> {
    match TakeField(s)
    case None => None
    case Some((minor, rest)) =>
      var patch := TakePatch(rest);
      if patch.None? then None else Some((minor, patch.value.0, patch.value.1))
  }

  lemma TakeMinorExactly(s: string, minor: nat, patch: nat, pre: Option<(Kind, nat)>)
    ensures TakeMinor(s) == Some((minor, patch, pre)) <==> s == Digits(minor) + (['.'] + (Digits(patch) + PreText(pre)))
  {
    var rest := Digits(patch) + PreText(pre);
    TakePatchExactly(rest, patch, pre);
    TakeFieldExactly(s, minor, rest);
    if TakeMinor(s) == Some((minor, patch, pre)) { TakePatchExactly(TakeField(s).value.1, patch, pre); }
  }

  /** `parse_tag`: None when it raises. */
  function ParseTag(s: string): Option<Tag> {
    if s == [] || s[0] != 'v' then None
    else
      match TakeField(s[1..])
      case None => None
      case Some((major, rest)) =>
        var minor := TakeMinor(rest);
        if minor.None? then None else Some(Tag(major, minor.value.0, minor.value.1, minor.value.2))
  }

  /** A tag's text and its parts decide each other. */
  lemma ParseTagExactly(s: string, t: Tag)
    ensures ParseTag(s) == Some(t) <==> s == Spell(t)
  {
    var rest := Digits(t.minor) + (['.'] + (Digits(t.patch) + PreText(t.pre)));
    TakeMinorExactly(rest, t.minor, t.patch, t.pre);
    if s != [] {
      assert s == [s[0]] + s[1..];
      TakeFieldExactly(s[1..], t.major, rest);
      if ParseTag(s) == Some(t) { TakeMinorExactly(TakeField(s[1..]).value.1, t.minor, t.patch, t.pre); }
    }
    assert (['v'] + (Digits(t.major) + (['.'] + rest)))[1..] == Digits(t.major) + (['.'] + rest);
  }

  // ---------- versions and lines ----------

  predicate Stable(t: Tag) { t.pre.None? }

  datatype Version = Version(major: nat, minor: nat, patch: nat)

  function VersionOf(t: Tag): Version { Version(t.major, t.minor, t.patch) }

  /** Tuple comparison. */
  predicate Less(a: Version, b: Version) {
    a.major < b.major ||
    (a.major == b.major && (a.minor < b.minor || (a.minor == b.minor && a.patch < b.patch)))
  }

  /** It is decided at the first component in which two versions differ. */
  lemma LessExactly(a: Version, b: Version)
    ensures Less(a, b) <==> LexLess([a.major, a.minor, a.patch], [b.major, b.minor, b.patch])
  {
    var u, v := [a.major, a.minor, a.patch], [b.major, b.minor, b.patch];
    assert u[1..] == [a.minor, a.patch] && v[1..] == [b.minor, b.patch];
    assert u[1..][1..] == [a.patch] && v[1..][1..] == [b.patch];
    assert LexLess([a.patch], [b.patch]) <==> a.patch < b.patch;
  }

  function LineOf(t: Tag): string { Digits(t.major) + (['.'] + Digits(t.minor)) }

  /** The text of a line decides its two numbers. */
  lemma LineExactly(a: Tag, b: Tag)
    ensures LineOf(a) == LineOf(b) <==> a.major == b.major && a.minor == b.minor
  {
    if LineOf(a) == LineOf(b) {
      TakeFieldExactly(LineOf(a), a.major, Digits(a.minor));
      TakeFieldExactly(LineOf(b), b.major, Digits(b.minor));
      DigitsInjective(a.minor, b.minor);
    }
  }

  /** A stable tag is known by its version. */
  lemma StableByVersion(a: Tag, b: Tag)
    requires Stable(a) && Stable(b) && VersionOf(a) == VersionOf(b)
    ensures a == b && Spell(a) == Spell(b)
  {
  }

  /** The names a parser recognises, parsed, in order. */
  function Recognised(parse: string -> Option<Tag>, names: seq<string>): seq<Tag> {
    if names == [] then []
    else
      var k := |names| - 1;
      var parsed := parse(names[k]);
      Recognised(parse, names[..k]) + if parsed.Some? then [parsed.value] else []
  }

  lemma {:induction false} RecognisedExactly(parse: string -> Option<Tag>, names: seq<string>, t: Tag)
    ensures t in Recognised(parse, names) <==> exists name :: name in names && parse(name) == Some(t)
  {
    if names != [] {
      var k := |names| - 1;
      RecognisedExactly(parse, names[..k], t);
      assert names == names[..k] + [names[k]];
    }
  }

  /** The release tags among the names of a repository's tags. */
  function ReleaseTagsOf(names: seq<string>): seq<Tag> { Recognised(ParseTag, names) }

  /** `_list_release_tags`. */
  method ListReleaseTags(names: seq<string>) returns (tags: seq<Tag>)
    ensures tags == ReleaseTagsOf(names)
  {
    tags := [];
    var i := 0;
    while i < |names|
      invariant 0 <= i <= |names| && tags == Recognised(ParseTag, names[..i])
    {
      var parsed := ParseTag(names[i]);
      assert names[..i + 1][..i] == names[..i];
      if parsed.Some? { tags := tags + [parsed.value]; }
      i := i + 1;
    }
    assert names[..i] == names;
  }

  /** Listed are exactly the tags whose text is there. */
  lemma ReleaseTagsExactly(names: seq<string>, t: Tag)
    ensures t in ReleaseTagsOf(names) <==> Spell(t) in names
  {
    RecognisedExactly(ParseTag, names, t);
    forall name ensures ParseTag(name) == Some(t) <==> name == Spell(t) { ParseTagExactly(name, t); }
  }
}
