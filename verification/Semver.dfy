/** internal/semver: strict MAJOR.MINOR.PATCH versions and three range forms. */
module Semver {
  import opened Prelude

  const UINT64_LIMIT := 0x1_0000_0000_0000_0000

  type Uint64 = n: int | 0 <= n < UINT64_LIMIT

  datatype Version = Version(major: Uint64, minor: Uint64, patch: Uint64)

  const ZERO_VERSION := Version(0, 0, 0)

  /* The version a text spells; the zero version for a text outside the version model. */
  function VersionOf(text: string): Version
  {
    match Parse(text) case Some(v) => v case None => ZERO_VERSION
  }

  datatype RangeKind = Exact | Caret | AtLeast

  datatype Range = Range(kind: RangeKind, base: Version)

  // ----- spelling -----

  /* The decimal spelling of n, as fmt's %d writes it. */
  function Decimal(n: nat): string
  {
    if n < 10 then [DigitChar(n)] else Decimal(n / 10) + [DigitChar(n % 10)]
  }

  function DigitChar(d: nat): char
    requires d < 10
  {
    '0' + d as char
  }

  function Spell(v: Version): string
  {
    Decimal(v.major) + "." + Decimal(v.minor) + "." + Decimal(v.patch)
  }

  function SpellRange(r: Range): string
  {
    match r.kind
    case Exact => Spell(r.base)
    case Caret => "^" + Spell(r.base)
    case AtLeast => ">=" + Spell(r.base)
  }

  // ----- order -----

  function CmpUint(a: Uint64, b: Uint64): int
  {
    if a < b then -1 else if a > b then 1 else 0
  }

  function Compare(a: Version, b: Version): int
  {
    if a.major != b.major then CmpUint(a.major, b.major)
    else if a.minor != b.minor then CmpUint(a.minor, b.minor)
    else if a.patch != b.patch then CmpUint(a.patch, b.patch)
    else 0
  }

  /* Compare is a total order on versions whose ties are equalities. */
  lemma CompareIsTotalOrder(a: Version, b: Version, c: Version)
    ensures Compare(a, b) == -Compare(b, a)
    ensures Compare(a, b) == 0 <==> a == b
    ensures Compare(a, b) >= 0 && Compare(b, c) >= 0 ==> Compare(a, c) >= 0
  {
  }

  /* The greater version has the greater first component that differs: -1, 0 and 1 as Compare returns them. */
  lemma CompareIsLexicographic(a: Version, b: Version)
    ensures Compare(a, b) == 1 <==>
            || a.major > b.major
            || (a.major == b.major && a.minor > b.minor)
            || (a.major == b.major && a.minor == b.minor && a.patch > b.patch)
    ensures Compare(a, b) == 0 <==> a.major == b.major && a.minor == b.minor && a.patch == b.patch
    ensures Compare(a, b) == -1 <==> Compare(a, b) != 1 && a != b
  {
  }

  function Satisfies(r: Range, v: Version): bool
  {
    match r.kind
    case Exact => Compare(v, r.base) == 0
    case Caret => v.major == r.base.major && Compare(v, r.base) >= 0
    case AtLeast => Compare(v, r.base) >= 0
  }

  /* What each form admits, component by component: an exact range one version, an at-least range its base and all
     after it under any major, a caret range its base and all after it under the same major. */
  lemma SatisfiesExactly(r: Range, v: Version)
    ensures r.kind == Exact ==> (Satisfies(r, v) <==> v == r.base)
    ensures r.kind == AtLeast ==>
              (Satisfies(r, v) <==>
                 || v.major > r.base.major
                 || (v.major == r.base.major && v.minor > r.base.minor)
                 || (v.major == r.base.major && v.minor == r.base.minor && v.patch >= r.base.patch))
    ensures r.kind == Caret ==>
              (Satisfies(r, v) <==>
                 && v.major == r.base.major
                 && (v.minor > r.base.minor || (v.minor == r.base.minor && v.patch >= r.base.patch)))
  {
    CompareIsLexicographic(v, r.base);
  }

  // ----- reading -----

  predicate IsDigit(c: char)
  {
    '0' <= c <= '9'
  }

  predicate AllDigits(s: string)
  {
    forall i :: 0 <= i < |s| ==> IsDigit(s[i])
  }

  function DecimalValue(s: string): nat
    requires AllDigits(s)
  {
    if s == "" then 0
    else DecimalValue(s[..|s| - 1]) * 10 + (s[|s| - 1] - '0') as nat
  }

  /* One component: no sign, no leading zero, below 2^64. */
  function ParseComponent(p: string): Option<Uint64>
  {
    if p == "" || (|p| > 1 && p[0] == '0') || !AllDigits(p) then None
    else
      var n := DecimalValue(p);
      if n < UINT64_LIMIT then Some(n) else None
  }

  /* strings.Split on a one-character separator. */
  function Split(s: string, sep: char): (parts: seq<string>)
    ensures |parts| >= 1
  {
    if s == "" then [""]
    else
      var rest := Split(s[1..], sep);
      if s[0] == sep then [""] + rest
      else [[s[0]] + rest[0]] + rest[1..]
  }

  function Parse(s: string): Option<Version>
  {
    var parts := Split(s, '.');
    if |parts| != 3 then None
    else
      match (ParseComponent(parts[0]), ParseComponent(parts[1]), ParseComponent(parts[2]))
      case (Some(a), Some(b), Some(c)) => Some(Version(a, b, c))
      case _ => None
  }

  function ParseRange(s: string): Option<Range>
  {
    var (kind, body) :=
      if "^" <= s then (Caret, s[1..])
      else if ">=" <= s then (AtLeast, s[2..])
      else (Exact, s);
    match Parse(body)
    case Some(v) => Some(Range(kind, v))
    case None => None
  }

  // ----- the bijection between versions and spellings -----

  lemma {:induction false} DecimalShape(n: nat)
    ensures AllDigits(Decimal(n)) && Decimal(n) != ""
    ensures |Decimal(n)| > 1 ==> Decimal(n)[0] != '0'
    ensures DecimalValue(Decimal(n)) == n
  {
    if n >= 10 {
      DecimalShape(n / 10);
      var s := Decimal(n);
      assert s[..|s| - 1] == Decimal(n / 10);
      if |Decimal(n / 10)| == 1 {
        assert Decimal(n / 10) == [DigitChar(n / 10)];
      }
    }
  }

  lemma DecimalSnoc(n: nat, d: char)
    requires n > 0 && '0' <= d <= '9'
    ensures Decimal(n * 10 + (d - '0') as nat) == Decimal(n) + [d]
  {
    var v := n * 10 + (d - '0') as nat;
    assert v / 10 == n && v % 10 == (d - '0') as nat;
    assert DigitChar(v % 10) == d;
  }

  lemma {:induction false} DecimalOfValue(p: string)
    requires p != "" && AllDigits(p) && (|p| > 1 ==> p[0] != '0')
    ensures Decimal(DecimalValue(p)) == p
    ensures |p| > 1 ==> DecimalValue(p) >= 10
  {
    var init, last := p[..|p| - 1], p[|p| - 1];
    if |p| == 1 {
      assert DecimalValue(init) == 0;
      assert p == [last];
    } else {
      DecimalOfValue(init);
      assert p == init + [last];
      if |init| == 1 {
        assert DecimalValue(init[..0]) == 0;
        assert DecimalValue(init) == (init[0] - '0') as nat;
      }
      assert DecimalValue(p) == DecimalValue(init) * 10 + (last - '0') as nat;
      DecimalSnoc(DecimalValue(init), last);
    }
  }

  lemma ComponentBijection(p: string, n: Uint64)
    ensures ParseComponent(p) == Some(n) <==> p == Decimal(n)
  {
    DecimalShape(n);
    if ParseComponent(p).Some? {
      DecimalOfValue(p);
    }
  }

  lemma {:induction false} SplitNoSeparator(s: string, sep: char)
    requires sep !in s
    ensures Split(s, sep) == [s]
  {
    if s != "" {
      SplitNoSeparator(s[1..], sep);
      assert [s[0]] + s[1..] == s;
    }
  }

  lemma {:induction false} SplitAtSeparator(s: string, sep: char, t: string)
    requires sep !in s
    ensures Split(s + [sep] + t, sep) == [s] + Split(t, sep)
  {
    var u := s + [sep] + t;
    if s == "" {
      assert u[1..] == t;
    } else {
      SplitAtSeparator(s[1..], sep, t);
      assert u[1..] == s[1..] + [sep] + t;
      var rest := [s[1..]] + Split(t, sep);
      assert [s[0]] + s[1..] == s;
      assert rest[1..] == Split(t, sep);
    }
  }

  function Join(parts: seq<string>, sep: char): string
    requires |parts| >= 1
  {
    if |parts| == 1 then parts[0] else parts[0] + [sep] + Join(parts[1..], sep)
  }

  lemma {:induction false} JoinSplit(s: string, sep: char)
    ensures Join(Split(s, sep), sep) == s
  {
    if s != "" {
      JoinSplit(s[1..], sep);
      var rest := Split(s[1..], sep);
      var parts := Split(s, sep);
      if s[0] == sep {
        assert parts[1..] == rest;
        assert [sep] + s[1..] == s;
      } else {
        assert parts[1..] == rest[1..];
        assert [s[0]] + s[1..] == s;
      }
    }
  }

  lemma DigitsHaveNoDot(n: nat)
    ensures '.' !in Decimal(n)
  {
    DecimalShape(n);
  }

  lemma SplitThree(a: string, b: string, c: string)
    requires '.' !in a && '.' !in b && '.' !in c
    ensures Split(a + "." + b + "." + c, '.') == [a, b, c]
  {
    assert a + "." + b + "." + c == a + ['.'] + (b + ['.'] + c);
    SplitAtSeparator(a, '.', b + ['.'] + c);
    SplitAtSeparator(b, '.', c);
    SplitNoSeparator(c, '.');
  }

  lemma ReadThree(a: string, b: string, c: string)
    requires '.' !in a && '.' !in b && '.' !in c
    ensures Parse(a + "." + b + "." + c).Some? <==>
            ParseComponent(a).Some? && ParseComponent(b).Some? && ParseComponent(c).Some?
  {
    SplitThree(a, b, c);
  }

  /* A string reads back as v exactly when it is v's spelling. */
  lemma VersionBijection(s: string, v: Version)
    ensures Parse(s) == Some(v) <==> s == Spell(v)
  {
    var a, b, c := Decimal(v.major), Decimal(v.minor), Decimal(v.patch);
    if s == Spell(v) {
      DigitsHaveNoDot(v.major);
      DigitsHaveNoDot(v.minor);
      DigitsHaveNoDot(v.patch);
      SplitThree(a, b, c);
      ComponentBijection(a, v.major);
      ComponentBijection(b, v.minor);
      ComponentBijection(c, v.patch);
    }
    if Parse(s) == Some(v) {
      var parts := Split(s, '.');
      ComponentBijection(parts[0], v.major);
      ComponentBijection(parts[1], v.minor);
      ComponentBijection(parts[2], v.patch);
      JoinSplit(s, '.');
      assert parts == [a, b, c];
      assert Join([c], '.') == c;
      assert Join([b, c], '.') == b + ['.'] + c;
      assert Join([a, b, c], '.') == a + ['.'] + (b + ['.'] + c);
    }
  }

  /* The same for ranges: a range has one spelling and it reads back. */
  lemma RangeBijection(s: string, r: Range)
    ensures ParseRange(s) == Some(r) <==> s == SpellRange(r)
  {
    DecimalShape(r.base.major);
    var body := if "^" <= s then s[1..] else if ">=" <= s then s[2..] else s;
    VersionBijection(body, r.base);
    var spelled := Spell(r.base);
    assert IsDigit(spelled[0]);
    if s == SpellRange(r) {
      match r.kind {
        case Exact => assert body == spelled;
        case Caret => assert s[1..] == spelled;
        case AtLeast => assert s[2..] == spelled; assert s[0] == '>';
      }
    }
    if ParseRange(s) == Some(r) {
      if "^" <= s {
        assert s == "^" + s[1..];
      } else if ">=" <= s {
        assert s == ">=" + s[2..];
      }
    }
  }

  /* Two accepted spellings name the same version exactly when they are the same string. */
  lemma SpellingIsIdentity(s: string, t: string)
    requires Parse(s).Some? && Parse(t).Some?
    ensures s == t <==> Compare(Parse(s).value, Parse(t).value) == 0
  {
    VersionBijection(s, Parse(s).value);
    VersionBijection(t, Parse(t).value);
  }

  lemma ComponentLimit(n: nat)
    ensures ParseComponent(Decimal(n)).Some? <==> n < UINT64_LIMIT
  {
    DecimalShape(n);
  }

  /* A component at or above 2^64 is refused wherever it stands. */
  lemma OverflowRejected(a: nat, b: nat, c: nat)
    ensures Parse(Decimal(a) + "." + Decimal(b) + "." + Decimal(c)).Some? <==>
            a < UINT64_LIMIT && b < UINT64_LIMIT && c < UINT64_LIMIT
  {
    DigitsHaveNoDot(a);
    DigitsHaveNoDot(b);
    DigitsHaveNoDot(c);
    ReadThree(Decimal(a), Decimal(b), Decimal(c));
    ComponentLimit(a);
    ComponentLimit(b);
    ComponentLimit(c);
  }

  // ----- the readers as the source writes them -----

  /* The form of a range is told by how its text begins. */
  lemma RangeFormExactly(s: string, r: Range)
    requires ParseRange(s) == Some(r)
    ensures r.kind == Caret <==> s != "" && s[0] == '^'
    ensures r.kind == AtLeast <==> |s| >= 2 && s[0] == '>' && s[1] == '='
    ensures r.kind == Exact <==> Parse(s) == Some(r.base)
    ensures r.kind == Caret ==> Parse(s[1..]) == Some(r.base)
    ensures r.kind == AtLeast ==> Parse(s[2..]) == Some(r.base)
  {
    RangeBijection(s, r);
    VersionBijection(Spell(r.base), r.base);
    VersionBijection(s, r.base);
    DecimalShape(r.base.major);
    match r.kind
    case Exact =>
    case Caret => assert s[1..] == Spell(r.base);
    case AtLeast => assert s[2..] == Spell(r.base);
  }

  lemma {:induction false} PrefixValue(p: string, i: nat)
    requires AllDigits(p) && i < |p|
    ensures DecimalValue(p[..i + 1]) == DecimalValue(p[..i]) * 10 + (p[i] - '0') as nat
    ensures DecimalValue(p[..i]) <= DecimalValue(p)
    decreases |p| - i
  {
    assert p[..i + 1][..i] == p[..i];
    if i + 1 == |p| {
      assert p[..i + 1] == p;
    } else {
      PrefixValue(p, i + 1);
    }
  }

  /* strconv.ParseUint(p, 10, 64) on a string of digits. */
  method ParseUint(p: string) returns (r: Option<Uint64>)
    requires AllDigits(p)
    ensures r == if DecimalValue(p) < UINT64_LIMIT then Some(DecimalValue(p)) else None
  {
    var n: nat := 0;
    for i := 0 to |p|
      invariant n == DecimalValue(p[..i]) && n < UINT64_LIMIT
    {
      PrefixValue(p, i);
      n := n * 10 + (p[i] - '0') as nat;
      if n >= UINT64_LIMIT {
        if i + 1 < |p| {
          PrefixValue(p, i + 1);
        } else {
          assert p[..i + 1] == p;
        }
        return None;
      }
    }
    assert p[..|p|] == p;
    r := Some(n);
  }

  method ParseVersion(s: string) returns (r: Option<Version>)
    ensures r == Parse(s)
    ensures forall v :: r == Some(v) <==> s == Spell(v)
  {
    forall v ensures Parse(s) == Some(v) <==> s == Spell(v) {
      VersionBijection(s, v);
    }
    var parts := Split(s, '.');
    if |parts| != 3 {
      return None;
    }
    var out: seq<Uint64> := [0, 0, 0];
    for i := 0 to 3
      invariant |out| == 3
      invariant forall k :: 0 <= k < i ==> ParseComponent(parts[k]) == Some(out[k])
    {
      var p := parts[i];
      if p == "" || (|p| > 1 && p[0] == '0') {
        return None;
      }
      for j := 0 to |p|
        invariant forall k :: 0 <= k < j ==> IsDigit(p[k])
      {
        if p[j] < '0' || p[j] > '9' {
          return None;
        }
      }
      var n := ParseUint(p);
      if n.None? {
        return None;
      }
      out := out[i := n.value];
    }
    r := Some(Version(out[0], out[1], out[2]));
  }

  method ParseRangeText(s: string) returns (r: Option<Range>)
    ensures r == ParseRange(s)
    ensures forall range :: r == Some(range) <==> s == SpellRange(range)
  {
    forall range ensures ParseRange(s) == Some(range) <==> s == SpellRange(range) {
      RangeBijection(s, range);
    }
    var kind, body := Exact, s;
    if "^" <= s {
      kind, body := Caret, s[1..];
    } else if ">=" <= s {
      kind, body := AtLeast, s[2..];
    }
    var v := ParseVersion(body);
    if v.None? {
      return None;
    }
    r := Some(Range(kind, v.value));
  }
}
