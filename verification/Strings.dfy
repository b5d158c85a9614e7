/** The string searches the gateway's parsers are built from. */
module Strings {
  import opened Wrappers

  /** `pattern` stands in `s` at position `i`. */
  predicate At<T(==)>(s: seq<T>, pattern: seq<T>, i: int) {
    0 <= i <= |s| - |pattern| && s[i..i + |pattern|] == pattern
  }

  lemma AtStartsWith<T>(s: seq<T>, pattern: seq<T>)
    requires pattern != []
    ensures forall i :: At(s, pattern, i) ==> s[i] == pattern[0]
  {
    forall i | At(s, pattern, i)
      ensures s[i] == pattern[0]
    {
      assert s[i..i + |pattern|][0] == pattern[0];
    }
  }

  /** The first position of `pattern`. */
  function Find<T(==)>(s: seq<T>, pattern: seq<T>): (r: Option<nat>)
    ensures r.Some? ==> At(s, pattern, r.value) && forall j :: 0 <= j < r.value ==> !At(s, pattern, j)
    ensures r.None? ==> forall j :: !At(s, pattern, j)
  {
    FindFrom(s, pattern, 0)
  }

  function FindFrom<T(==)>(s: seq<T>, pattern: seq<T>, i: nat): (r: Option<nat>)
    requires forall j :: 0 <= j < i ==> !At(s, pattern, j)
    ensures r.Some? ==> At(s, pattern, r.value) && forall j :: 0 <= j < r.value ==> !At(s, pattern, j)
    ensures r.None? ==> forall j :: !At(s, pattern, j)
    decreases |s| - i
  {
    if At(s, pattern, i) then Some(i)
    else if i + |pattern| >= |s| then None
    else FindFrom(s, pattern, i + 1)
  }

  /** The last position of `pattern`. */
  function RFind<T(==)>(s: seq<T>, pattern: seq<T>): (r: Option<nat>)
    ensures r.Some? ==> At(s, pattern, r.value) && forall j :: j > r.value ==> !At(s, pattern, j)
    ensures r.None? ==> forall j :: !At(s, pattern, j)
  {
    RFindUpTo(s, pattern, |s|)
  }

  function RFindUpTo<T(==)>(s: seq<T>, pattern: seq<T>, i: nat): (r: Option<nat>)
    requires forall j :: j > i ==> !At(s, pattern, j)
    ensures r.Some? ==> At(s, pattern, r.value) && forall j :: j > r.value ==> !At(s, pattern, j)
    ensures r.None? ==> forall j :: !At(s, pattern, j)
  {
    if At(s, pattern, i) then Some(i)
    else if i == 0 then None
    else RFindUpTo(s, pattern, i - 1)
  }

  predicate Contains<T(==)>(s: seq<T>, pattern: seq<T>) { Find(s, pattern).Some? }

  function StripPrefix(s: string, prefix: string): Option<string> {
    if prefix <= s then Some(s[|prefix|..]) else None
  }

  lemma StripPrefixOf(prefix: string, rest: string)
    ensures StripPrefix(prefix + rest, prefix) == Some(rest)
  {
  }

  /** Both sides of the first `c`. */
  function SplitOnce(s: string, c: char): Option<(string, string)> {
    match Find(s, [c])
    case None => None
    case Some(i) => Some((s[..i], s[i + 1..]))
  }

  /** Both sides of the last `c`. */
  function RSplitOnce(s: string, c: char): Option<(string, string)> {
    match RFind(s, [c])
    case None => None
    case Some(i) => Some((s[..i], s[i + 1..]))
  }

  lemma AtChar(s: string, c: char, i: nat)
    ensures At(s, [c], i) <==> i < |s| && s[i] == c
  {
    if i < |s| {
      assert s[i..i + 1] == [s[i]];
    }
  }

  lemma SplitOnceAt(a: string, c: char, b: string)
    requires c !in a
    ensures SplitOnce(a + [c] + b, c) == Some((a, b))
  {
    var s := a + [c] + b;
    AtChar(s, c, |a|);
    assert s[|a|] == c && forall k :: 0 <= k < |a| ==> s[k] == a[k];
    var i := Find(s, [c]).value;
    AtChar(s, c, i);
    assert i == |a|;
    assert s[..i] == a && s[i + 1..] == b;
  }

  lemma RSplitOnceAt(a: string, c: char, b: string)
    requires c !in b
    ensures RSplitOnce(a + [c] + b, c) == Some((a, b))
  {
    var s := a + [c] + b;
    AtChar(s, c, |a|);
    assert s[|a|] == c && forall k :: |a| < k < |s| ==> s[k] == b[k - |a| - 1];
    var i := RFind(s, [c]).value;
    AtChar(s, c, i);
    assert i == |a|;
    assert s[..i] == a && s[i + 1..] == b;
  }

  lemma SplitOnceNone(s: string, c: char)
    ensures SplitOnce(s, c).None? <==> c !in s
    ensures RSplitOnce(s, c).None? <==> c !in s
  {
    if c in s {
      var i: nat :| i < |s| && s[i] == c;
      AtChar(s, c, i);
    } else {
      forall i: nat
        ensures !At(s, [c], i)
      {
        AtChar(s, c, i);
      }
    }
  }

  lemma SplitOnceParts(s: string, c: char)
    requires SplitOnce(s, c).Some?
    ensures s == SplitOnce(s, c).value.0 + [c] + SplitOnce(s, c).value.1
  {
    AtChar(s, c, Find(s, [c]).value);
  }

  lemma FirstHasNone(s: string, c: char)
    requires SplitOnce(s, c).Some?
    ensures c !in SplitOnce(s, c).value.0
  {
    forall j: nat | j < Find(s, [c]).value
      ensures s[j] != c
    {
      AtChar(s, c, j);
    }
  }

  /** A longer string is cut at the same first separator. */
  lemma SplitOnceExtend(s: string, c: char, t: string)
    requires c in s
    ensures SplitOnce(s, c).Some?
    ensures SplitOnce(s + t, c) == Some((SplitOnce(s, c).value.0, SplitOnce(s, c).value.1 + t))
  {
    SplitOnceNone(s, c);
    SplitOnceParts(s, c);
    FirstHasNone(s, c);
    var first, rest := SplitOnce(s, c).value.0, SplitOnce(s, c).value.1;
    assert s + t == first + [c] + (rest + t);
    SplitOnceAt(first, c, rest + t);
  }

  lemma RSplitOnceParts(s: string, c: char)
    requires RSplitOnce(s, c).Some?
    ensures s == RSplitOnce(s, c).value.0 + [c] + RSplitOnce(s, c).value.1
  {
    AtChar(s, c, RFind(s, [c]).value);
  }

  /** The parts between the separators; a string without one is one part. */
  function Split(s: string, c: char): (parts: seq<string>)
    ensures parts != []
    decreases |s|
  {
    match SplitOnce(s, c)
    case None => [s]
    case Some((first, rest)) => [first] + Split(rest, c)
  }

  lemma SplitPrepend(a: string, c: char, b: string)
    requires c !in a
    ensures Split(a + [c] + b, c) == [a] + Split(b, c)
  {
    SplitOnceAt(a, c, b);
  }

  /** A string with no separator is its only part. */
  lemma SplitWhole(s: string, c: char)
    requires c !in s
    ensures Split(s, c) == [s]
  {
    SplitOnceNone(s, c);
  }

  /** What is not a separator is in some part. */
  lemma {:induction false} SplitCovers(s: string, c: char, x: char) returns (i: nat)
    requires x in s && x != c
    ensures i < |Split(s, c)| && x in Split(s, c)[i]
    decreases |s|
  {
    match SplitOnce(s, c) {
      case None =>
        return 0;
      case Some((first, rest)) =>
        SplitOnceParts(s, c);
        if x in first {
          return 0;
        }
        var k := SplitCovers(rest, c, x);
        return k + 1;
    }
  }

  /** A leading separator leaves an empty first part. */
  lemma SplitLeading(s: string, c: char)
    requires s != "" && s[0] == c
    ensures Split(s, c)[0] == ""
  {
    assert s == "" + [c] + s[1..];
    SplitPrepend("", c, s[1..]);
  }

  /** A trailing separator leaves an empty last part. */
  lemma {:induction false} SplitTrailing(s: string, c: char)
    requires s != "" && s[|s| - 1] == c
    ensures Split(s, c)[|Split(s, c)| - 1] == ""
    decreases |s|
  {
    SplitOnceNone(s, c);
    var at := Find(s, [c]).value;
    AtChar(s, c, at);
    if at < |s| - 1 {
      SplitTrailing(s[at + 1..], c);
    } else {
      SplitWhole("", c);
    }
  }

  /** The elements of `xs`, each at its first occurrence. */
  function Dedup<T(==)>(xs: seq<T>): seq<T> {
    if xs == [] then []
    else
      var before, last := Dedup(xs[..|xs| - 1]), xs[|xs| - 1];
      if last in before then before else before + [last]
  }

  lemma DedupPush<T>(xs: seq<T>, x: T)
    ensures Dedup(xs + [x]) == if x in Dedup(xs) then Dedup(xs) else Dedup(xs) + [x]
  {
    assert (xs + [x])[..|xs|] == xs;
  }

  function FirstIndex<T(==)>(xs: seq<T>, x: T): (i: nat)
    requires x in xs
    ensures i < |xs| && xs[i] == x && forall k :: 0 <= k < i ==> xs[k] != x
  {
    if xs[0] == x then 0 else FirstIndex(xs[1..], x) + 1
  }

  lemma {:induction false} DedupMember<T>(xs: seq<T>, x: T)
    ensures x in Dedup(xs) <==> x in xs
  {
    if xs != [] {
      DedupMember(xs[..|xs| - 1], x);
      DedupMember(xs[..|xs| - 1], xs[|xs| - 1]);
    }
  }

  /** Nothing twice, and ordered by first occurrence. */
  lemma {:induction false} DedupOrder<T>(xs: seq<T>, i: nat, j: nat)
    requires i < j < |Dedup(xs)|
    ensures Dedup(xs)[i] in xs && Dedup(xs)[j] in xs
    ensures FirstIndex(xs, Dedup(xs)[i]) < FirstIndex(xs, Dedup(xs)[j])
    ensures Dedup(xs)[i] != Dedup(xs)[j]
  {
    DedupMember(xs, Dedup(xs)[i]);
    DedupMember(xs, Dedup(xs)[j]);
    var init, last := xs[..|xs| - 1], xs[|xs| - 1];
    var before := Dedup(init);
    DedupMember(init, last);
    DedupMember(init, before[i]);
    assert Dedup(xs)[i] == before[i];
    SameFirstIndex(init, xs, before[i]);
    if j < |before| {
      DedupOrder(init, i, j);
      SameFirstIndex(init, xs, before[j]);
    } else {
      assert Dedup(xs)[j] == last && last !in init;
    }
  }

  lemma SameFirstIndex<T>(init: seq<T>, xs: seq<T>, x: T)
    requires init <= xs && x in init
    ensures x in xs && FirstIndex(init, x) == FirstIndex(xs, x)
  {
    assert forall k :: 0 <= k < |init| ==> xs[k] == init[k];
    assert xs[FirstIndex(init, x)] == x;
  }

  function Join(parts: seq<string>, separator: string): string {
    if parts == [] then ""
    else if |parts| == 1 then parts[0]
    else parts[0] + separator + Join(parts[1..], separator)
  }

  lemma JoinPush(first: string, rest: seq<string>, separator: string)
    requires rest != []
    ensures Join([first] + rest, separator) == first + separator + Join(rest, separator)
  {
    assert ([first] + rest)[1..] == rest;
  }

  /** Cutting at every separator and joining with it are inverse, and no part has a separator. */
  lemma {:induction false} SplitJoined(s: string, c: char)
    ensures Join(Split(s, c), [c]) == s
    ensures forall k :: 0 <= k < |Split(s, c)| ==> c !in Split(s, c)[k]
    decreases |s|
  {
    SplitOnceNone(s, c);
    if c in s {
      var first, rest := SplitOnce(s, c).value.0, SplitOnce(s, c).value.1;
      SplitOnceParts(s, c);
      FirstHasNone(s, c);
      SplitJoined(rest, c);
      JoinPush(first, Split(rest, c), [c]);
    }
  }

  lemma {:induction false} JoinedSplits(parts: seq<string>, c: char)
    requires parts != [] && forall k :: 0 <= k < |parts| ==> c !in parts[k]
    ensures Split(Join(parts, [c]), c) == parts
  {
    if |parts| == 1 {
      SplitWhole(parts[0], c);
    } else {
      assert forall k :: 0 <= k < |parts| - 1 ==> parts[1..][k] == parts[k + 1];
      JoinedSplits(parts[1..], c);
      SplitPrepend(parts[0], c, Join(parts[1..], [c]));
    }
  }

  /** The characters with a letter case here are the ASCII ones. */
  lemma LowerExactly(c: char)
    ensures LowerChar(c) != c <==> c in "ABCDEFGHIJKLMNOPQRSTUVWXYZ"
    ensures Lower("AIMSZ") == "aimsz"
    ensures forall d :: LowerChar(c) != c && LowerChar(d) != d ==>
      LowerChar(d) as int - LowerChar(c) as int == d as int - c as int
  {
  }

  lemma HexDigitExactly(c: char)
    ensures IsHexDigit(c) <==> c in "0123456789abcdefABCDEF"
    ensures IsHexDigit(c) ==> LowerChar(c) in "0123456789abcdef"
  {
  }

  lemma AlphanumericExactly(c: char)
    ensures IsAlphanumeric(c) <==>
      c in "0123456789" || c in "abcdefghijklmnopqrstuvwxyz" || c in "ABCDEFGHIJKLMNOPQRSTUVWXYZ"
  {
  }

  function LowerChar(c: char): char {
    if 'A' <= c <= 'Z' then (c as int + 32) as char else c
  }

  function Lower(s: string): (r: string)
    ensures |r| == |s|
  {
    seq(|s|, i requires 0 <= i < |s| => LowerChar(s[i]))
  }

  predicate IsDigit(c: char) { '0' <= c <= '9' }

  predicate IsHexDigit(c: char) { IsDigit(c) || 'a' <= c <= 'f' || 'A' <= c <= 'F' }

  predicate IsAlphanumeric(c: char) { IsDigit(c) || 'a' <= c <= 'z' || 'A' <= c <= 'Z' }

  /** The Unicode White_Space property. */
  predicate IsWhitespace(c: char) {
    var v := c as int;
    || 0x09 <= v <= 0x0D || v == 0x20 || v == 0x85 || v == 0xA0 || v == 0x1680
    || 0x2000 <= v <= 0x200A || v == 0x2028 || v == 0x2029 || v == 0x202F || v == 0x205F || v == 0x3000
  }

  function TrimStart(s: string): string {
    if s != "" && IsWhitespace(s[0]) then TrimStart(s[1..]) else s
  }

  function TrimEnd(s: string): string {
    if s != "" && IsWhitespace(s[|s| - 1]) then TrimEnd(s[..|s| - 1]) else s
  }

  function Trim(s: string): string { TrimEnd(TrimStart(s)) }

  ghost predicate AllSpace(s: string) { forall i :: 0 <= i < |s| ==> IsWhitespace(s[i]) }

  lemma {:induction false} TrimStartOf(before: string, s: string)
    requires AllSpace(before)
    ensures TrimStart(before + s) == TrimStart(s)
  {
    if before == "" {
      assert before + s == s;
    } else {
      assert (before + s)[1..] == before[1..] + s;
      TrimStartOf(before[1..], s);
    }
  }

  lemma {:induction false} TrimEndOf(s: string, after: string)
    requires AllSpace(after)
    ensures TrimEnd(s + after) == TrimEnd(s)
  {
    if after == "" {
      assert s + after == s;
    } else {
      assert (s + after)[..|s + after| - 1] == s + after[..|after| - 1];
      TrimEndOf(s, after[..|after| - 1]);
    }
  }

  /** What follows a text with something in it stays; what follows nothing but space is trimmed from the front. */
  lemma {:induction false} TrimStartKeepsEnd(s: string, after: string)
    requires AllSpace(after)
    ensures AllSpace(s) ==> TrimStart(s) == "" && TrimStart(s + after) == ""
    ensures !AllSpace(s) ==> TrimStart(s + after) == TrimStart(s) + after
  {
    if s == "" {
      assert s + after == after + "";
      TrimStartOf(after, "");
    } else if IsWhitespace(s[0]) {
      assert (s + after)[1..] == s[1..] + after;
      assert AllSpace(s) <==> AllSpace(s[1..]) by {
        assert forall i :: 0 <= i < |s| - 1 ==> s[1..][i] == s[i + 1];
        assert forall i :: 0 < i < |s| ==> s[i] == s[1..][i - 1];
      }
      TrimStartKeepsEnd(s[1..], after);
    }
  }

  /** White space around any text is trimmed away. */
  lemma TrimAround(before: string, s: string, after: string)
    requires AllSpace(before) && AllSpace(after)
    ensures Trim(before + s + after) == Trim(s)
  {
    assert before + s + after == before + (s + after);
    TrimStartOf(before, s + after);
    TrimStartKeepsEnd(s, after);
    if !AllSpace(s) {
      TrimEndOf(TrimStart(s), after);
    }
  }

  lemma {:induction false} TrimStartEnds(s: string)
    ensures var t := TrimStart(s); t == "" || (!IsWhitespace(t[0]) && t[|t| - 1] == s[|s| - 1])
  {
    if s != "" && IsWhitespace(s[0]) {
      TrimStartEnds(s[1..]);
    }
  }

  lemma {:induction false} TrimEndEnds(s: string)
    ensures var t := TrimEnd(s); t <= s && (t == "" || !IsWhitespace(t[|t| - 1]))
  {
    if s != "" && IsWhitespace(s[|s| - 1]) {
      TrimEndEnds(s[..|s| - 1]);
    }
  }

  lemma TrimIsTrimmed(s: string)
    ensures Trim(Trim(s)) == Trim(s)
  {
    TrimStartEnds(s);
    TrimEndEnds(TrimStart(s));
  }

  // ---------- decimals ----------

  function DigitChar(d: nat): char
    requires d < 10
  {
    '0' + d as char
  }

  function DigitValue(c: char): nat
    requires IsDigit(c)
  {
    c as int - '0' as int
  }

  /** The decimal form of `n`. */
  function Decimal(n: nat): (s: string)
    ensures s != "" && forall i :: 0 <= i < |s| ==> IsDigit(s[i])
  {
    if n < 10 then [DigitChar(n)] else Decimal(n / 10) + [DigitChar(n % 10)]
  }

  function Value(digits: string): nat
    requires forall i :: 0 <= i < |digits| ==> IsDigit(digits[i])
  {
    if digits == "" then 0
    else Value(digits[..|digits| - 1]) * 10 + DigitValue(digits[|digits| - 1])
  }

  /** A u64 from text: an optional plus sign, then digits only, without overflow. */
  function ParseU64(s: string): Option<nat> {
    ParseDigits(if s != "" && s[0] == '+' then s[1..] else s)
  }

  function ParseDigits(digits: string): Option<nat> {
    if digits == "" || exists i :: 0 <= i < |digits| && !IsDigit(digits[i]) then None
    else if Value(digits) >= U64_LIMIT then None
    else Some(Value(digits))
  }

  lemma {:induction false} ValueOfDecimal(n: nat)
    ensures Value(Decimal(n)) == n
  {
    if n >= 10 {
      ValueOfDecimal(n / 10);
      assert Decimal(n)[..|Decimal(n)| - 1] == Decimal(n / 10);
    } else {
      assert Value("") == 0;
    }
  }

  /** A decimal has no leading zero, but for zero itself, and its digits are worth ten times those to their right. */
  lemma {:induction false} DecimalShape(n: nat)
    ensures Decimal(n)[0] == '0' <==> n == 0
    ensures |Decimal(n)| == 1 <==> n < 10
    ensures Value("10") == 10 && Decimal(10) == "10"
  {
    if n >= 10 {
      DecimalShape(n / 10);
    }
    assert "10"[..1] == "1" && Value("1") == 1;
  }

  /** Printed and read back, exactly when the number fits. */
  lemma ParseDecimal(n: nat)
    ensures ParseU64(Decimal(n)) == if n < U64_LIMIT then Some(n) else None
    ensures ParseU64("+" + Decimal(n)) == ParseU64(Decimal(n))
  {
    ValueOfDecimal(n);
    assert ("+" + Decimal(n))[1..] == Decimal(n);
  }
}
