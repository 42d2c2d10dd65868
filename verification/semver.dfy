/** Version strings and the two range tests the resolver makes of them
    (`<1.0.0` and `>=1.3.0`), following Semantic Versioning 2.0.0. */
module SemVer {
  import opened Wrappers
  import Strings
  import Decimal

  /** The numeric triple MAJOR.MINOR.PATCH; precedence looks at nothing else. */
  datatype Version = Version(major: nat, minor: nat, patch: nat)

  /** Precedence on the triple: lexicographic, major first (item 11 of
      Semantic Versioning 2.0.0, for versions without pre-release tags). */
  predicate Below(a: Version, b: Version)
  {
    || a.major < b.major
    || (a.major == b.major && a.minor < b.minor)
    || (a.major == b.major && a.minor == b.minor && a.patch < b.patch)
  }

  /** A character allowed in a build-metadata identifier: [0-9A-Za-z-]. */
  predicate IdentChar(c: char)
  {
    Decimal.IsDigit(c) || ('a' <= c <= 'z') || ('A' <= c <= 'Z') || c == '-'
  }

  /** Build metadata (item 10 of Semantic Versioning 2.0.0): one or more
      non-empty identifiers of `IdentChar`s, separated by dots. */
  predicate ValidBuild(m: string)
  {
    && |m| >= 1
    && m[0] != '.'
    && m[|m| - 1] != '.'
    && (forall i :: 0 <= i < |m| ==> IdentChar(m[i]) || m[i] == '.')
    && (forall i :: 0 <= i < |m| - 1 && m[i] == '.' ==> m[i + 1] != '.')
  }

  /** Reads `MAJOR.MINOR.PATCH`, each part a numeric identifier. What it
      accepts is exactly the canonical rendering of the version it returns. */
  function ParseCore(core: string): (r: Option<Version>)
    ensures r.Some? ==> Render(r.value) == core
  {
    var first := Strings.SplitFirst(core, '.');
    if first.tail.None? then None
    else
      var second := Strings.SplitFirst(first.tail.value, '.');
      if second.tail.None? then None
      else
        var a, b, c := first.head, second.head, second.tail.value;
        if Decimal.Canonical(a) && Decimal.Canonical(b) && Decimal.Canonical(c) then
          Decimal.RenderOfValue(a);
          Decimal.RenderOfValue(b);
          Decimal.RenderOfValue(c);
          assert core == a + "." + b + "." + c;
          Some(Version(Decimal.Value(a), Decimal.Value(b), Decimal.Value(c)))
        else None
  }

  /** Reads a version string, with optional `+build` metadata; `None` for a
      string that is not a version. A string that parses is the canonical
      rendering of its version, followed by nothing or by `+` and
      well-formed metadata. */
  function Parse(s: string): (r: Option<Version>)
    ensures r.Some? ==> Render(r.value) == Strings.BeforeFirst(s, '+')
    ensures r.Some? && Strings.SplitFirst(s, '+').tail.Some? ==> ValidBuild(Strings.SplitFirst(s, '+').tail.value)
  {
    var cut := Strings.SplitFirst(s, '+');
    if cut.tail.Some? && !ValidBuild(cut.tail.value) then None
    else ParseCore(cut.head)
  }

  /** The canonical string of a version, without metadata. */
  function Render(v: Version): string
  {
    Decimal.Render(v.major) + "." + Decimal.Render(v.minor) + "." + Decimal.Render(v.patch)
  }

  /** `semverSatisfies(s, '<' + bound)`: never true of a string that is not a version. */
  predicate SatisfiesBelow(s: string, bound: Version): (b: bool)
    ensures b <==> Parse(s).Some? && Below(Parse(s).value, bound)
  {
    match Parse(s)
    case Some(v) => Below(v, bound)
    case None => false
  }

  /** `semverSatisfies(s, '>=' + bound)`: never true of a string that is not a version. */
  predicate SatisfiesAtLeast(s: string, bound: Version): (b: bool)
    ensures b <==> Parse(s).Some? && !Below(Parse(s).value, bound)
  {
    match Parse(s)
    case Some(v) => !Below(v, bound)
    case None => false
  }

  /** `Below` is a strict total order on triples. */
  lemma BelowIsStrictTotalOrder(a: Version, b: Version, c: Version)
    ensures !Below(a, a)
    ensures Below(a, b) ==> !Below(b, a)
    ensures Below(a, b) && Below(b, c) ==> Below(a, c)
    ensures a == b || Below(a, b) || Below(b, a)
  {
  }

  lemma DigitsHaveNoSeparator(s: string, c: char)
    requires Decimal.AllDigits(s) && !Decimal.IsDigit(c)
    ensures c !in s
  {
  }

  /** The three parts of a rendered version, cut apart again. */
  lemma ParseCoreOfJoin(a: string, b: string, c: string)
    requires Decimal.Canonical(a) && Decimal.Canonical(b) && Decimal.Canonical(c)
    ensures ParseCore(a + "." + b + "." + c)
         == Some(Version(Decimal.Value(a), Decimal.Value(b), Decimal.Value(c)))
  {
    DigitsHaveNoSeparator(a, '.');
    DigitsHaveNoSeparator(b, '.');
    var rest := b + "." + c;
    assert a + "." + b + "." + c == a + ['.'] + rest;
    Strings.SplitFirstOfJoin(a, '.', rest);
    assert rest == b + ['.'] + c;
    Strings.SplitFirstOfJoin(b, '.', c);
  }

  /** Rendering has no metadata separator in it. */
  lemma RenderIsPlain(v: Version)
    ensures '+' !in Render(v)
  {
    var a, b, c := Decimal.Render(v.major), Decimal.Render(v.minor), Decimal.Render(v.patch);
    DigitsHaveNoSeparator(a, '+');
    DigitsHaveNoSeparator(b, '+');
    DigitsHaveNoSeparator(c, '+');
  }

  /** Parsing a rendered version gives the version back. */
  lemma ParseOfRender(v: Version)
    ensures Parse(Render(v)) == Some(v)
  {
    RenderIsPlain(v);
    Strings.SplitFirstOfPlain(Render(v), '+');
    ParseCoreOfJoin(Decimal.Render(v.major), Decimal.Render(v.minor), Decimal.Render(v.patch));
    Decimal.ValueOfRender(v.major);
    Decimal.ValueOfRender(v.minor);
    Decimal.ValueOfRender(v.patch);
  }

  /** Build metadata is ignored: a rendered version with any well-formed
      metadata appended parses to the same version (item 10 of Semantic
      Versioning 2.0.0). */
  lemma ParseIgnoresBuild(v: Version, m: string)
    requires ValidBuild(m)
    ensures Parse(Render(v) + "+" + m) == Some(v)
  {
    RenderIsPlain(v);
    Strings.SplitFirstOfJoin(Render(v), '+', m);
    ParseOfRender(v);
    Strings.SplitFirstOfPlain(Render(v), '+');
  }

  /** Stripping the metadata does not change the version a string denotes. */
  lemma ParseOfStripped(s: string)
    requires Parse(s).Some?
    ensures Parse(Strings.BeforeFirst(s, '+')) == Parse(s)
  {
    ParseOfRender(Parse(s).value);
  }

  /** On a rendered version the range tests are precedence on the triple
      itself. */
  lemma RangesOnTriples(v: Version, bound: Version)
    ensures SatisfiesBelow(Render(v), bound) <==> Below(v, bound)
    ensures SatisfiesAtLeast(Render(v), bound) <==> !Below(v, bound)
  {
    ParseOfRender(v);
  }

  /** Build metadata does not change either range test. */
  lemma RangesIgnoreBuild(v: Version, bound: Version, m: string)
    requires ValidBuild(m)
    ensures SatisfiesBelow(Render(v) + "+" + m, bound) <==> Below(v, bound)
    ensures SatisfiesAtLeast(Render(v) + "+" + m, bound) <==> !Below(v, bound)
  {
    ParseIgnoresBuild(v, m);
  }

  /** For a version string exactly one of the two range tests against the
      same bound holds; for any other string neither does. */
  lemma RangesPartition(s: string, bound: Version)
    ensures Parse(s).Some? ==> SatisfiesBelow(s, bound) != SatisfiesAtLeast(s, bound)
    ensures Parse(s).None? ==> !SatisfiesBelow(s, bound) && !SatisfiesAtLeast(s, bound)
  {
  }
}
