/**
 Single byte ranges and the file streamer (src/main.rs: `parse_single_byte_range`, `cached_blob_response`,
 `file_stream_range`).
 */
module ByteRange {
  import opened Wrappers
  import opened Strings
  import opened Bytes

  /** No usable range, an unsatisfiable one, or inclusive positions. */
  datatype Answer = Ignored | Unsatisfiable | Satisfied(start: nat, end: nat)

  function ParseSingleByteRange(value: string, size: nat): Answer {
    match StripPrefix(value, "bytes=")
    case None => Ignored
    case Some(rest) =>
      match SplitOnce(rest, '-')
      case None => Ignored
      case Some((startStr, endStr)) =>
        if startStr == "" && endStr == "" then Ignored
        else if startStr == "" then
          match ParseU64(endStr)
          case None => Ignored
          case Some(suffix) =>
            if size == 0 || suffix == 0 then Unsatisfiable
            else Satisfied(size - Min(suffix, size), size - 1)
        else
          match ParseU64(startStr)
          case None => Ignored
          case Some(start) =>
            if endStr == "" then
              if size == 0 || start > size - 1 then Unsatisfiable else Satisfied(start, size - 1)
            else
              match ParseU64(endStr)
              case None => Ignored
              case Some(end) =>
                if start > end || start >= size then Unsatisfiable
                else Satisfied(start, Min(end, size - 1))
  }

  /** Whatever the header says, an accepted range lies within the blob. */
  lemma AcceptedWithinBlob(value: string, size: nat)
    requires ParseSingleByteRange(value, size).Satisfied?
    ensures var r := ParseSingleByteRange(value, size); r.start <= r.end < size
  {
  }

  // ---------- what a header text says ----------

  /** The three forms of a single range. */
  datatype Spec = Closed(first: nat, last: nat) | From(first: nat) | Suffix(count: nat)

  function RangeText(startStr: string, endStr: string): string { "bytes=" + startStr + "-" + endStr }

  function PrintSpec(spec: Spec): string {
    match spec
    case Closed(first, last) => RangeText(Decimal(first), Decimal(last))
    case From(first) => RangeText(Decimal(first), "")
    case Suffix(count) => RangeText("", Decimal(count))
  }

  /** Decimal digits, any number of leading zeros included; with `signs`, one plus in front is allowed. */
  ghost predicate Numeral(s: string, n: nat, signs: bool) {
    Digits(s, n) || (signs && s != "" && s[0] == '+' && Digits(s[1..], n))
  }

  ghost predicate Digits(s: string, n: nat) {
    s != "" && (forall i :: 0 <= i < |s| ==> IsDigit(s[i])) && Value(s) == n
  }

  /** The text is a single range with these numbers; without `signs`, by the grammar of section 2.1 of RFC 7233. */
  ghost predicate Writes(value: string, spec: Spec, signs: bool) {
    match spec
    case Closed(first, last) =>
      exists a, b :: value == RangeText(a, b) && Numeral(a, first, signs) && Numeral(b, last, signs)
    case From(first) => exists a :: value == RangeText(a, "") && Numeral(a, first, signs)
    case Suffix(count) => exists b :: value == RangeText("", b) && Numeral(b, count, signs)
  }

  /** The same with the two number texts given. */
  ghost predicate Parts(a: string, b: string, spec: Spec, signs: bool) {
    match spec
    case Closed(first, last) => Numeral(a, first, signs) && Numeral(b, last, signs)
    case From(first) => Numeral(a, first, signs) && b == ""
    case Suffix(count) => a == "" && Numeral(b, count, signs)
  }

  ghost predicate FitsU64(spec: Spec) {
    match spec
    case Closed(first, last) => first < U64_LIMIT && last < U64_LIMIT
    case From(first) => first < U64_LIMIT
    case Suffix(count) => count < U64_LIMIT
  }

  /** The positions of a blob of `size` bytes a spec selects (section 2.1 of RFC 7233). */
  ghost predicate Selects(spec: Spec, size: nat, i: nat) {
    && i < size
    && match spec
       case Closed(first, last) => first <= i <= last
       case From(first) => first <= i
       case Suffix(count) => size - count <= i
  }

  /** A first position after the last makes a spec invalid (section 2.1 of RFC 7233). */
  predicate Invalid(spec: Spec) { spec.Closed? && spec.first > spec.last }

  /** What the parser says of a spec with numbers that fit. */
  function Meaning(spec: Spec, size: nat): (answer: Answer)
    ensures !answer.Ignored?
  {
    match spec
    case Closed(first, last) =>
      if first > last || first >= size then Unsatisfiable else Satisfied(first, Min(last, size - 1))
    case From(first) => if first >= size then Unsatisfiable else Satisfied(first, size - 1)
    case Suffix(count) =>
      if size == 0 || count == 0 then Unsatisfiable else Satisfied(size - Min(count, size), size - 1)
  }

  lemma ParseNumeral(s: string, n: nat)
    requires Numeral(s, n, true)
    ensures ParseU64(s) == if n < U64_LIMIT then Some(n) else None
    ensures s != "" && '-' !in s
  {
    if !Digits(s, n) {
      assert '-' !in s[1..] && s == [s[0]] + s[1..];
    }
  }

  lemma NumeralOf(s: string)
    requires ParseU64(s).Some?
    ensures Numeral(s, ParseU64(s).value, true) && '-' !in s && s != ""
  {
    var digits := if s != "" && s[0] == '+' then s[1..] else s;
    assert digits != "" && forall i :: 0 <= i < |digits| ==> IsDigit(digits[i]);
    assert Digits(digits, ParseU64(s).value);
    ParseNumeral(s, ParseU64(s).value);
  }

  /** Where a range text is cut. */
  lemma CutAtDash(a: string, b: string)
    requires '-' !in a
    ensures StripPrefix(RangeText(a, b), "bytes=") == Some(a + "-" + b)
    ensures SplitOnce(a + "-" + b, '-') == Some((a, b))
  {
    assert RangeText(a, b) == "bytes=" + (a + "-" + b);
    SplitOnceAt(a, '-', b);
  }

  lemma WrittenParts(value: string, spec: Spec, signs: bool) returns (a: string, b: string)
    requires Writes(value, spec, signs)
    ensures value == RangeText(a, b) && Parts(a, b, spec, signs) && '-' !in a
    ensures StripPrefix(value, "bytes=") == Some(a + "-" + b) && SplitOnce(a + "-" + b, '-') == Some((a, b))
  {
    match spec {
      case Closed(first, last) =>
        a, b :| value == RangeText(a, b) && Numeral(a, first, signs) && Numeral(b, last, signs);
        ParseNumeral(a, first);
      case From(first) =>
        a :| value == RangeText(a, "") && Numeral(a, first, signs);
        b := "";
        ParseNumeral(a, first);
      case Suffix(count) =>
        b :| value == RangeText("", b) && Numeral(b, count, signs);
        a := "";
    }
    CutAtDash(a, b);
  }

  lemma ParseParts(value: string, a: string, b: string, spec: Spec, size: nat)
    requires StripPrefix(value, "bytes=") == Some(a + "-" + b) && SplitOnce(a + "-" + b, '-') == Some((a, b))
    requires Parts(a, b, spec, true)
    ensures ParseSingleByteRange(value, size) == if FitsU64(spec) then Meaning(spec, size) else Ignored
  {
    match spec
    case Closed(first, last) =>
      ParseNumeral(a, first);
      ParseNumeral(b, last);
    case From(first) => ParseNumeral(a, first);
    case Suffix(count) => ParseNumeral(b, count);
  }

  /** Every range text, signs and leading zeros included, gets its meaning; with a number past u64 it is ignored. */
  lemma WrittenMeaning(value: string, spec: Spec, size: nat)
    requires Writes(value, spec, true)
    ensures ParseSingleByteRange(value, size) == if FitsU64(spec) then Meaning(spec, size) else Ignored
  {
    var a, b := WrittenParts(value, spec, true);
    ParseParts(value, a, b, spec, size);
  }

  /** And every text that is not ignored is such a text. */
  lemma AnsweredIsWritten(value: string, size: nat) returns (spec: Spec)
    requires !ParseSingleByteRange(value, size).Ignored?
    ensures Writes(value, spec, true) && FitsU64(spec)
  {
    var a, b := AnsweredParts(value, size);
    if a == "" {
      NumeralOf(b);
      spec := Suffix(ParseU64(b).value);
    } else if b == "" {
      NumeralOf(a);
      spec := From(ParseU64(a).value);
    } else {
      NumeralOf(a);
      NumeralOf(b);
      spec := Closed(ParseU64(a).value, ParseU64(b).value);
    }
  }

  lemma AnsweredParts(value: string, size: nat) returns (a: string, b: string)
    requires !ParseSingleByteRange(value, size).Ignored?
    ensures value == RangeText(a, b) && !(a == "" && b == "")
    ensures (a != "" ==> ParseU64(a).Some?) && (b != "" ==> ParseU64(b).Some?)
  {
    var rest := StripPrefix(value, "bytes=").value;
    a, b := SplitOnce(rest, '-').value.0, SplitOnce(rest, '-').value.1;
    RangeTextOf(value, rest, a, b);
  }

  lemma RangeTextOf(value: string, rest: string, a: string, b: string)
    requires StripPrefix(value, "bytes=") == Some(rest) && SplitOnce(rest, '-') == Some((a, b))
    ensures value == RangeText(a, b)
  {
    SplitOnceParts(rest, '-');
    assert value == "bytes=" + rest;
  }

  lemma SignsAllowed(value: string, spec: Spec)
    requires Writes(value, spec, false)
    ensures Writes(value, spec, true)
  {
    var a, b := WrittenParts(value, spec, false);
  }

  lemma PrintedIsWritten(spec: Spec)
    ensures Writes(PrintSpec(spec), spec, false)
  {
    match spec
    case Closed(first, last) =>
      ValueOfDecimal(first);
      ValueOfDecimal(last);
      assert Digits(Decimal(first), first) && Digits(Decimal(last), last);
    case From(first) =>
      ValueOfDecimal(first);
      assert Digits(Decimal(first), first);
    case Suffix(count) =>
      ValueOfDecimal(count);
      assert Digits(Decimal(count), count);
  }

  /** Printing a spec and parsing it gives its meaning; a number that does not fit makes the header ignored. */
  lemma ParsePrinted(spec: Spec, size: nat)
    ensures ParseSingleByteRange(PrintSpec(spec), size) == if FitsU64(spec) then Meaning(spec, size) else Ignored
  {
    PrintedIsWritten(spec);
    SignsAllowed(PrintSpec(spec), spec);
    WrittenMeaning(PrintSpec(spec), spec, size);
  }

  // ---------- what the standard says of it ----------

  /** Satisfiable as in section 2.1 of RFC 7233: a suffix is whenever it is not empty, also of an empty blob. */
  predicate Satisfiable(spec: Spec, size: nat) {
    match spec
    case Closed(first, _) => first < size
    case From(first) => first < size
    case Suffix(count) => 0 < count
  }

  /** The standard's answer: ignore an invalid spec, 416 for an unsatisfiable one, else the selected positions. */
  ghost predicate Standard(spec: Spec, size: nat, answer: Answer) {
    if Invalid(spec) then answer == Ignored
    else if !Satisfiable(spec, size) then answer == Unsatisfiable
    else answer.Satisfied? && forall i: nat :: Selects(spec, size, i) <==> answer.start <= i <= answer.end
  }

  /** What may stand between the elements of a list (section 7 of RFC 7230). */
  predicate Separator(c: char) { c == ',' || c == ' ' || c == '\t' }

  predicate Separators(s: string) { forall i :: 0 <= i < |s| ==> Separator(s[i]) }

  /**
   The header value by the grammar of section 2.1 of RFC 7233, for a set of one range: the unit in any letter case,
   and empty list elements before and after the range.
   */
  ghost predicate Grammar(value: string, spec: Spec) {
    exists unit, lead, a, b, tail :: Spelled(value, spec, unit, lead, a, b, tail)
  }

  function ListText(unit: string, lead: string, a: string, b: string, tail: string): string {
    unit + ("=" + ((lead + a) + "-" + (b + tail)))
  }

  ghost predicate Spelled(value: string, spec: Spec, unit: string, lead: string, a: string, b: string, tail: string) {
    && value == ListText(unit, lead, a, b, tail)
    && Lower(unit) == "bytes"
    && Separators(lead) && (lead != "" ==> lead[0] == ',')
    && Separators(tail) && (tail != "" ==> tail[|tail| - 1] == ',')
    && Parts(a, b, spec, false)
  }

  /** The same for a header text: what is no set of one range by the standard's grammar is ignored. */
  ghost predicate StandardAnswer(value: string, size: nat, answer: Answer) {
    && (forall spec :: Grammar(value, spec) ==> Standard(spec, size, answer))
    && ((forall spec :: !Grammar(value, spec)) ==> answer == Ignored)
  }

  /** A suffix of an empty blob is satisfiable, and gets a 416. */
  predicate EmptySuffix(spec: Spec, size: nat) { spec.Suffix? && 0 < spec.count && size == 0 }

  /**
   Where the gateway departs: it answers a signed number; it ignores a valid range with a number past u64, with
   another spelling of the unit, or with empty list elements; it has a 416 for a range backwards and for a suffix
   of an empty blob.
   */
  ghost predicate Departs(value: string, size: nat) {
    || (exists spec :: Writes(value, spec, true) && !Writes(value, spec, false) && FitsU64(spec))
    || (exists spec :: Grammar(value, spec) && !Invalid(spec) && !(Writes(value, spec, false) && FitsU64(spec)))
    || (exists spec ::
          Writes(value, spec, false) && FitsU64(spec) && (Invalid(spec) || EmptySuffix(spec, size)))
  }

  lemma MeaningStandard(spec: Spec, size: nat)
    ensures Standard(spec, size, Meaning(spec, size)) <==> !Invalid(spec) && !EmptySuffix(spec, size)
    ensures Invalid(spec) ==> Meaning(spec, size) == Unsatisfiable
    ensures Standard(spec, size, Ignored) <==> Invalid(spec)
  {
    var answer := Meaning(spec, size);
    if answer.Satisfied? {
      assert Selects(spec, size, answer.start);
    }
  }

  /** A written text, as the plainest spelling. */
  lemma PlainSpelling(value: string, spec: Spec, signs: bool) returns (a: string, b: string)
    requires Writes(value, spec, signs)
    ensures value == RangeText(a, b) && Parts(a, b, spec, signs)
    ensures value == ListText("bytes", "", a, b, "")
  {
    a, b := WrittenParts(value, spec, signs);
    RangeTextPlain(a, b);
  }

  lemma RangeTextPlain(a: string, b: string)
    ensures RangeText(a, b) == ListText("bytes", "", a, b, "")
  {
    assert "" + a == a && b + "" == b;
    assert "bytes=" == "bytes" + "=";
  }

  lemma WrittenInGrammar(value: string, spec: Spec)
    requires Writes(value, spec, false)
    ensures Grammar(value, spec)
  {
    var a, b := PlainSpelling(value, spec, false);
    assert Lower("bytes") == "bytes";
    assert Spelled(value, spec, "bytes", "", a, b, "");
  }

  /** No separator is part of a number. */
  ghost predicate Unseparated(s: string) { forall i :: 0 <= i < |s| ==> !Separator(s[i]) }

  lemma PartsUnseparated(a: string, b: string, spec: Spec, signs: bool)
    requires Parts(a, b, spec, signs)
    ensures Unseparated(a) && Unseparated(b) && '-' !in a
  {
    if a != "" {
      NumeralUnseparated(a, spec.first, signs);
    }
    if b != "" {
      NumeralUnseparated(b, if spec.Closed? then spec.last else spec.count, signs);
    }
  }

  lemma NumeralUnseparated(s: string, n: nat, signs: bool)
    requires Numeral(s, n, signs)
    ensures Unseparated(s) && '-' !in s
  {
    if !Digits(s, n) {
      assert forall i :: 0 < i < |s| ==> s[i] == s[1..][i - 1];
    }
  }

  lemma SeparatorsFirst(lead: string, a: string, lead': string, a': string)
    requires Separators(lead) && Unseparated(a) && Separators(lead') && Unseparated(a')
    requires lead + a == lead' + a'
    ensures lead == lead' && a == a'
  {
    var s := lead + a;
    assert forall i :: 0 <= i < |lead| ==> Separator(s[i]);
    assert forall i :: |lead| <= i < |s| ==> !Separator(s[i]) by {
      assert forall i :: |lead| <= i < |s| ==> s[i] == a[i - |lead|];
    }
    assert forall i :: 0 <= i < |lead'| ==> Separator(s[i]);
    assert forall i :: |lead'| <= i < |s| ==> !Separator(s[i]) by {
      assert forall i :: |lead'| <= i < |s| ==> s[i] == a'[i - |lead'|];
    }
    OneBoundary(s, |lead|, |lead'|, true);
    SameCut(lead, a, lead', a');
  }

  lemma SeparatorsLast(b: string, tail: string, b': string, tail': string)
    requires Separators(tail) && Unseparated(b) && Separators(tail') && Unseparated(b')
    requires b + tail == b' + tail'
    ensures b == b' && tail == tail'
  {
    var s := b + tail;
    assert forall i :: 0 <= i < |b| ==> !Separator(s[i]);
    assert forall i :: |b| <= i < |s| ==> Separator(s[i]) by {
      assert forall i :: |b| <= i < |s| ==> s[i] == tail[i - |b|];
    }
    assert forall i :: 0 <= i < |b'| ==> !Separator(s[i]);
    assert forall i :: |b'| <= i < |s| ==> Separator(s[i]) by {
      assert forall i :: |b'| <= i < |s| ==> s[i] == tail'[i - |b'|];
    }
    OneBoundary(s, |b|, |b'|, false);
    SameCut(b, tail, b', tail');
  }

  lemma OneBoundary(s: string, k: nat, k': nat, first: bool)
    requires k <= |s| && k' <= |s|
    requires forall i :: 0 <= i < |s| ==> (Separator(s[i]) <==> (i < k) == first)
    requires forall i :: 0 <= i < |s| ==> (Separator(s[i]) <==> (i < k') == first)
    ensures k == k'
  {
    if s != "" {
      var c := s[Min(Min(k, k'), |s| - 1)];
    }
  }

  lemma SameCut(x: string, y: string, x': string, y': string)
    requires x + y == x' + y' && |x| == |x'|
    ensures x == x' && y == y'
  {
    assert x == (x + y)[..|x|] == (x' + y')[..|x|] == x';
    assert y == (x + y)[|x|..] == (x' + y')[|x|..] == y';
  }

  /** Two spellings of one value have the same number texts. */
  lemma SameParts(unit: string, lead: string, a: string, b: string, tail: string,
                  unit': string, lead': string, a': string, b': string, tail': string)
    requires ListText(unit, lead, a, b, tail) == ListText(unit', lead', a', b', tail')
    requires |unit| == |unit'| && '-' !in a && '-' !in a'
    requires Separators(lead) && Separators(tail) && Separators(lead') && Separators(tail')
    requires Unseparated(a) && Unseparated(b) && Unseparated(a') && Unseparated(b')
    ensures unit == unit' && lead == lead' && a == a' && b == b' && tail == tail'
  {
    var x, x' := (lead + a) + "-" + (b + tail), (lead' + a') + "-" + (b' + tail');
    SameCut(unit, "=" + x, unit', "=" + x');
    SameCut("=", x, "=", x');
    assert '-' !in lead + a && '-' !in lead' + a';
    SplitOnceAt(lead + a, '-', b + tail);
    SplitOnceAt(lead' + a', '-', b' + tail');
    SeparatorsFirst(lead, a, lead', a');
    SeparatorsLast(b, tail, b', tail');
  }

  lemma SamePartsSameSpec(a: string, b: string, s: Spec, t: Spec)
    requires Parts(a, b, s, false) && Parts(a, b, t, true)
    ensures s == t && Parts(a, b, t, false)
  {
  }

  /** A value has one spec at most. */
  lemma GrammarUnique(value: string, s: Spec, t: Spec)
    requires Grammar(value, s) && Grammar(value, t)
    ensures s == t
  {
    var unit, lead, a, b, tail :| Spelled(value, s, unit, lead, a, b, tail);
    var unit', lead', a', b', tail' :| Spelled(value, t, unit', lead', a', b', tail');
    PartsUnseparated(a, b, s, false);
    PartsUnseparated(a', b', t, false);
    assert |unit| == |Lower(unit)| && |unit'| == |Lower(unit')|;
    SameParts(unit, lead, a, b, tail, unit', lead', a', b', tail');
    SamePartsSameSpec(a, b, s, t);
  }

  /** A spelling of a text the parser understands is the plain one. */
  lemma OnlyPlain(value: string, s: Spec, t: Spec, unit: string, lead: string, a: string, b: string, tail: string)
    requires Spelled(value, s, unit, lead, a, b, tail) && Writes(value, t, true)
    ensures unit == "bytes" && lead == "" && tail == "" && value == RangeText(a, b) && Parts(a, b, t, true)
  {
    var c, d := PlainSpelling(value, t, true);
    PartsUnseparated(a, b, s, false);
    PartsUnseparated(c, d, t, true);
    LowerLength(unit);
    SameParts(unit, lead, a, b, tail, "bytes", "", c, d, "");
  }

  lemma LowerLength(unit: string)
    ensures |Lower(unit)| == |unit|
  {
  }

  /** A text the parser understands, if it is in the grammar, is the plain spelling of the same spec. */
  lemma GrammarPlain(value: string, s: Spec, t: Spec)
    requires Grammar(value, s) && Writes(value, t, true)
    ensures s == t && Writes(value, t, false)
  {
    var unit, lead, a, b, tail :| Spelled(value, s, unit, lead, a, b, tail);
    OnlyPlain(value, s, t, unit, lead, a, b, tail);
    SamePartsSameSpec(a, b, s, t);
    PartsWrite(value, a, b, t);
  }

  lemma PartsWrite(value: string, a: string, b: string, spec: Spec)
    requires value == RangeText(a, b) && Parts(a, b, spec, false)
    ensures Writes(value, spec, false)
  {
  }

  /** For every header text: the answer is the standard's exactly where the gateway does not depart from it. */
  lemma StandardExactly(value: string, size: nat)
    ensures StandardAnswer(value, size, ParseSingleByteRange(value, size)) <==> !Departs(value, size)
  {
    if spec :| Grammar(value, spec) {
      InGrammarExactly(value, spec, size);
    } else {
      forall spec
        ensures !Writes(value, spec, false)
      {
        if Writes(value, spec, false) {
          WrittenInGrammar(value, spec);
        }
      }
      if ParseSingleByteRange(value, size).Ignored? {
        forall spec | Writes(value, spec, true)
          ensures !FitsU64(spec)
        {
          WrittenMeaning(value, spec, size);
        }
      } else {
        var spec := AnsweredIsWritten(value, size);
      }
    }
  }

  lemma InGrammarExactly(value: string, spec: Spec, size: nat)
    requires Grammar(value, spec)
    ensures StandardAnswer(value, size, ParseSingleByteRange(value, size)) <==> !Departs(value, size)
  {
    GrammarAnswer(value, spec, size);
    OnlyAnswer(value, spec, size, ParseSingleByteRange(value, size));
    OnlyDeparture(value, spec, size);
    MeaningStandard(spec, size);
  }

  lemma OnlyAnswer(value: string, spec: Spec, size: nat, answer: Answer)
    requires Grammar(value, spec)
    ensures StandardAnswer(value, size, answer) <==> Standard(spec, size, answer)
  {
    forall other | Grammar(value, other)
      ensures other == spec
    {
      GrammarUnique(value, spec, other);
    }
  }

  lemma OnlyDeparture(value: string, spec: Spec, size: nat)
    requires Grammar(value, spec)
    ensures Departs(value, size) <==>
      if Writes(value, spec, false) && FitsU64(spec) then Invalid(spec) || EmptySuffix(spec, size) else !Invalid(spec)
  {
    forall other | Grammar(value, other)
      ensures other == spec
    {
      GrammarUnique(value, spec, other);
    }
    forall other | Writes(value, other, true)
      ensures other == spec && Writes(value, other, false)
    {
      GrammarPlain(value, spec, other);
    }
    forall other | Writes(value, other, false)
      ensures other == spec
    {
      SignsAllowed(value, other);
    }
  }

  /** What the parser says of a text in the grammar: the meaning of the plain spelling if it fits, nothing else. */
  lemma GrammarAnswer(value: string, spec: Spec, size: nat)
    requires Grammar(value, spec)
    ensures ParseSingleByteRange(value, size)
         == if Writes(value, spec, false) && FitsU64(spec) then Meaning(spec, size) else Ignored
  {
    if Writes(value, spec, false) {
      SignsAllowed(value, spec);
      WrittenMeaning(value, spec, size);
    } else if !ParseSingleByteRange(value, size).Ignored? {
      var other := AnsweredIsWritten(value, size);
      GrammarPlain(value, spec, other);
      assert false;
    }
  }

  // ---------- the departures happen ----------

  /** A range backwards gets a 416, for every two numbers and every size. */
  lemma BackwardsDeparts(first: nat, last: nat, size: nat)
    requires last < first < U64_LIMIT
    ensures ParseSingleByteRange(PrintSpec(Closed(first, last)), size) == Unsatisfiable
    ensures Departs(PrintSpec(Closed(first, last)), size)
  {
    ParsePrinted(Closed(first, last), size);
    PrintedIsWritten(Closed(first, last));
  }

  /** So does a suffix of an empty blob. */
  lemma EmptySuffixDeparts(count: nat)
    requires 0 < count < U64_LIMIT
    ensures ParseSingleByteRange(PrintSpec(Suffix(count)), 0) == Unsatisfiable && Departs(PrintSpec(Suffix(count)), 0)
  {
    ParsePrinted(Suffix(count), 0);
    PrintedIsWritten(Suffix(count));
  }

  /** A valid range with a number past u64 is ignored. */
  lemma WideDeparts(first: nat, last: nat, size: nat)
    requires first <= last && U64_LIMIT <= last
    ensures ParseSingleByteRange(PrintSpec(Closed(first, last)), size) == Ignored
    ensures Departs(PrintSpec(Closed(first, last)), size)
  {
    ParsePrinted(Closed(first, last), size);
    PrintedIsWritten(Closed(first, last));
    WrittenInGrammar(PrintSpec(Closed(first, last)), Closed(first, last));
  }

  /** A plus sign is accepted in front of every number. */
  lemma SignedDeparts(first: nat, last: nat, size: nat)
    requires first < U64_LIMIT && last < U64_LIMIT
    ensures var value := RangeText("+" + Decimal(first), Decimal(last));
            && ParseSingleByteRange(value, size) == Meaning(Closed(first, last), size)
            && Departs(value, size)
  {
    var a, b := "+" + Decimal(first), Decimal(last);
    var value := RangeText(a, b);
    ValueOfDecimal(first);
    ValueOfDecimal(last);
    assert a[1..] == Decimal(first) && Digits(Decimal(first), first);
    assert Numeral(a, first, true) && Numeral(b, last, true);
    assert Writes(value, Closed(first, last), true);
    WrittenMeaning(value, Closed(first, last), size);
    if Writes(value, Closed(first, last), false) {
      var c, d := WrittenParts(value, Closed(first, last), false);
      ParseNumeral(a, first);
      CutAtDash(a, b);
      assert false;
    }
  }

  /** Another letter case of the unit, or an empty list element before or after the range, and the range is ignored. */
  lemma OtherSpellingDeparts(unit: string, lead: string, tail: string, first: nat, last: nat, size: nat)
    requires Lower(unit) == "bytes" && lead in {"", ","} && tail in {"", ","} && first <= last
    requires unit != "bytes" || lead != "" || tail != ""
    ensures var value := ListText(unit, lead, Decimal(first), Decimal(last), tail);
            ParseSingleByteRange(value, size) == Ignored && Departs(value, size)
  {
    var a, b, spec := Decimal(first), Decimal(last), Closed(first, last);
    var value := ListText(unit, lead, a, b, tail);
    ValueOfDecimal(first);
    ValueOfDecimal(last);
    assert Digits(a, first) && Digits(b, last);
    OneSeparator(lead);
    OneSeparator(tail);
    assert Spelled(value, spec, unit, lead, a, b, tail);
    if Writes(value, spec, false) {
      SignsAllowed(value, spec);
      OnlyPlain(value, spec, spec, unit, lead, a, b, tail);
      assert false;
    }
    GrammarAnswer(value, spec, size);
  }

  lemma OneSeparator(tail: string)
    requires tail in {"", ","}
    ensures Separators(tail) && (tail != "" ==> tail[0] == ',' && tail[|tail| - 1] == ',')
  {
  }

  // ---------- streaming ----------

  const FILE_READ_BUFFER: nat := 64 * 1024

  /** How much of the file the stream gets through: all of it, or whole buffers until one is not filled. */
  function Streamed(file: Data, offset: nat, len: nat): nat {
    if offset + len <= |file| then len
    else if offset >= |file| then 0
    else (|file| - offset) / FILE_READ_BUFFER * FILE_READ_BUFFER
  }

  /** The bytes from `from` on; none when nothing was read. */
  function Slice(file: Data, from: nat, to: nat): Data {
    if from < to <= |file| then file[from..to] else []
  }

  lemma SliceExtends(file: Data, from: nat, at: nat, to: nat)
    requires from <= at < to <= |file|
    ensures Slice(file, from, at) + file[at..to] == Slice(file, from, to)
  {
  }

  ghost predicate Buffers(chunks: seq<Data>) {
    forall i :: 0 <= i < |chunks| ==> 0 < |chunks[i]| <= 65_536
  }

  lemma PushChunk(file: Data, chunks: seq<Data>, from: nat, at: nat, to: nat)
    requires from <= at < to <= |file| && to - at <= FILE_READ_BUFFER
    requires Concat(chunks) == Slice(file, from, at) && Buffers(chunks)
    ensures Concat(chunks + [file[at..to]]) == Slice(file, from, to) && Buffers(chunks + [file[at..to]])
  {
    ConcatPush(chunks, file[at..to]);
    SliceExtends(file, from, at, to);
  }

  /** Exactly the range, or the buffers before the first one the file cannot fill, and then an error. */
  method FileStreamRange(file: Data, offset: nat, len: nat) returns (chunks: seq<Data>, failed: bool)
    ensures failed <==> Breaks(file, offset, len, false)
    ensures Concat(chunks) == Sent(file, offset, len, false)
    ensures Buffers(chunks)
  {
    chunks, failed := [], false;
    var cursor: nat, remaining: nat := offset, len;
    ghost var full := 0;
    while remaining != 0
      invariant Streaming(file, offset, len, cursor, remaining, full, chunks)
      decreases remaining
    {
      var want := if remaining < FILE_READ_BUFFER then remaining else FILE_READ_BUFFER;
      if cursor + want > |file| {
        StreamedWhole(file, offset, len, full);
        return chunks, true;
      }
      StreamOn(file, offset, len, cursor, remaining, full, chunks, want);
      chunks := chunks + [file[cursor..cursor + want]];
      cursor, remaining, full := cursor + want, remaining - want, full + 1;
    }
  }

  /** After `full` buffers; the last one alone may be partial. */
  ghost predicate Streaming(file: Data, offset: nat, len: nat, cursor: nat, remaining: nat, full: nat,
                            chunks: seq<Data>) {
    && cursor + remaining == offset + len && offset <= cursor
    && (cursor > offset ==> cursor <= |file|)
    && (remaining > 0 ==> cursor == offset + full * FILE_READ_BUFFER)
    && Concat(chunks) == Slice(file, offset, cursor)
    && Buffers(chunks)
  }

  lemma StreamOn(file: Data, offset: nat, len: nat, cursor: nat, remaining: nat, full: nat, chunks: seq<Data>,
                 want: nat)
    requires Streaming(file, offset, len, cursor, remaining, full, chunks)
    requires remaining > 0 && want == Min(remaining, FILE_READ_BUFFER) && cursor + want <= |file|
    ensures Streaming(file, offset, len, cursor + want, remaining - want, full + 1,
                      chunks + [file[cursor..cursor + want]])
  {
    PushChunk(file, chunks, offset, cursor, cursor + want);
    NextBuffer(cursor, remaining, offset, full, want);
  }

  /** Another buffer follows only a full one. */
  lemma NextBuffer(cursor: nat, remaining: nat, offset: nat, full: nat, want: nat)
    requires 0 < want == Min(remaining, FILE_READ_BUFFER) && cursor == offset + full * FILE_READ_BUFFER
    ensures remaining > want ==> cursor + want == offset + (full + 1) * FILE_READ_BUFFER
  {
  }

  lemma StreamedWhole(file: Data, offset: nat, len: nat, full: nat)
    requires full * FILE_READ_BUFFER < len
    requires full > 0 ==> offset + full * FILE_READ_BUFFER <= |file|
    requires |file| < offset + len && |file| < offset + (full + 1) * FILE_READ_BUFFER
    ensures Slice(file, offset, offset + Streamed(file, offset, len))
         == Slice(file, offset, offset + full * FILE_READ_BUFFER)
  {
  }

  // ---------- serving a cached blob ----------

  datatype Response = Response(status: nat, contentLength: nat, contentRange: Option<string>, body: Data, failed: bool)

  function ContentRange(start: nat, end: nat, size: nat): string {
    "bytes " + Decimal(start) + "-" + Decimal(end) + "/" + Decimal(size)
  }

  /** A GET or HEAD of a cached blob: `size` is what the lookup saw, `file` what is there now. */
  method CachedBlobResponse(file: Data, size: nat, range: Option<string>, head: bool) returns (r: Response)
    ensures r == Served(file, size, range, head)
  {
    var answer := if range.Some? then ParseSingleByteRange(range.value, size) else Ignored;
    var status, start, len, contentRange := 200, 0, size, None;
    match answer {
      case Unsatisfiable =>
        return Response(416, 0, Some("bytes */" + Decimal(size)), [], false);
      case Satisfied(first, last) =>
        status, start, len, contentRange := 206, first, last - first + 1, Some(ContentRange(first, last, size));
      case Ignored =>
    }
    if head {
      return Response(status, len, contentRange, [], false);
    }
    var chunks, failed := FileStreamRange(file, start, len);
    r := Response(status, len, contentRange, Concat(chunks), failed);
  }

  /** Positions from `start` on, `len` of them, or nothing for a HEAD. */
  function Sent(file: Data, start: nat, len: nat, head: bool): Data {
    if head then [] else Slice(file, start, start + Streamed(file, start, len))
  }

  predicate Breaks(file: Data, start: nat, len: nat, head: bool) { !head && len > 0 && start + len > |file| }

  /** The response, by the bytes the range selects. */
  function Served(file: Data, size: nat, range: Option<string>, head: bool): Response {
    match if range.Some? then ParseSingleByteRange(range.value, size) else Ignored
    case Unsatisfiable => Response(416, 0, Some("bytes */" + Decimal(size)), [], false)
    case Satisfied(start, end) =>
      var len := end - start + 1;
      Response(206, len, Some(ContentRange(start, end, size)),
               Sent(file, start, len, head), Breaks(file, start, len, head))
    case Ignored => Response(200, size, None, Sent(file, 0, size, head), Breaks(file, 0, size, head))
  }

  /**
   A GET's body has Content-Length bytes exactly when it does not break off, as it never does while the file has
   the size looked up; a HEAD has the GET's headers and no body.
   */
  lemma ContentLengthExactly(file: Data, size: nat, range: Option<string>)
    ensures var get, head := Served(file, size, range, false), Served(file, size, range, true);
            && (|get.body| == get.contentLength <==> !get.failed)
            && |get.body| <= get.contentLength
            && (size <= |file| ==> !get.failed)
            && head == get.(body := [], failed := false)
  {
    if range.Some? && ParseSingleByteRange(range.value, size).Satisfied? {
      AcceptedWithinBlob(range.value, size);
      var r := ParseSingleByteRange(range.value, size);
      SentLength(file, r.start, r.end - r.start + 1);
    } else {
      SentLength(file, 0, size);
    }
  }

  lemma ServedStretch(blob: Data, value: string, answer: Answer)
    requires ParseSingleByteRange(value, |blob|) == answer && answer.Satisfied? && answer.start <= answer.end < |blob|
    ensures Served(blob, |blob|, Some(value), false)
         == Response(206, answer.end + 1 - answer.start,
                     Some(ContentRange(answer.start, answer.end, |blob|)),
                     blob[answer.start..answer.end + 1], false)
  {
    SentWhole(blob, answer.start, answer.end + 1 - answer.start);
  }

  lemma Refused(blob: Data, value: string)
    requires ParseSingleByteRange(value, |blob|).Unsatisfiable?
    ensures Served(blob, |blob|, Some(value), false) == Response(416, 0, Some("bytes */" + Decimal(|blob|)), [], false)
  {
  }

  lemma SentWhole(file: Data, start: nat, len: nat)
    requires 0 < len && start + len <= |file|
    ensures Sent(file, start, len, false) == file[start..start + len] && !Breaks(file, start, len, false)
  {
  }

  /** The positions a spec selects, none if it is backwards. */
  ghost predicate Selected(spec: Spec, size: nat, i: nat) { Selects(spec, size, i) && !Invalid(spec) }

  /** The answered positions are the selected ones. */
  lemma MeaningSelects(spec: Spec, size: nat, i: nat)
    ensures var answer := Meaning(spec, size);
            && (answer.Satisfied? ==> answer.start <= answer.end < size)
            && (Selected(spec, size, i) <==> answer.Satisfied? && answer.start <= i <= answer.end)
  {
    match spec
    case Closed(first, last) =>
    case From(first) =>
    case Suffix(count) =>
  }

  /**
   A GET of a whole blob with a range text: 206, the selected positions and their text if there are any, and 416 with
   the size and no body otherwise.
   */
  lemma ServedExactly(blob: Data, value: string, spec: Spec) returns (lo: nat, hi: nat)
    requires Writes(value, spec, true) && FitsU64(spec)
    ensures lo <= hi <= |blob| && forall i: nat :: Selected(spec, |blob|, i) <==> lo <= i < hi
    ensures Served(blob, |blob|, Some(value), false)
         == if lo < hi
            then Response(206, hi - lo, Some(ContentRange(lo, hi - 1, |blob|)), blob[lo..hi], false)
            else Response(416, 0, Some("bytes */" + Decimal(|blob|)), [], false)
  {
    WrittenMeaning(value, spec, |blob|);
    lo, hi := MeaningStretch(spec, |blob|);
    if lo < hi {
      ServedStretch(blob, value, Meaning(spec, |blob|));
    } else {
      Refused(blob, value);
    }
  }

  lemma MeaningStretch(spec: Spec, size: nat) returns (lo: nat, hi: nat)
    ensures lo <= hi <= size && forall i: nat :: Selected(spec, size, i) <==> lo <= i < hi
    ensures Meaning(spec, size) == if lo < hi then Satisfied(lo, hi - 1) else Unsatisfiable
  {
    var answer := Meaning(spec, size);
    forall i: nat
      ensures Selected(spec, size, i) <==> answer.Satisfied? && answer.start <= i <= answer.end
    {
      MeaningSelects(spec, size, i);
    }
    MeaningSelects(spec, size, 0);
    lo, hi := 0, 0;
    if answer.Satisfied? {
      lo, hi := answer.start, answer.end + 1;
    }
  }

  /** Without a range, or with a text that is no range or has a number past u64, the whole blob is served. */
  lemma ServedWhole(blob: Data, range: Option<string>)
    requires range.Some? ==> forall spec :: Writes(range.value, spec, true) ==> !FitsU64(spec)
    ensures Served(blob, |blob|, range, false) == Response(200, |blob|, None, blob, false)
  {
    if range.Some? && !ParseSingleByteRange(range.value, |blob|).Ignored? {
      var spec := AnsweredIsWritten(range.value, |blob|);
      assert false;
    }
    assert blob[0..|blob|] == blob;
  }

  lemma SentLength(file: Data, start: nat, len: nat)
    ensures |Sent(file, start, len, false)| <= len
    ensures |Sent(file, start, len, false)| == len <==> !Breaks(file, start, len, false)
  {
  }

  /** Asking for a stretch of the blob by its first and last position returns that stretch. */
  lemma StretchServed(blob: Data, from: nat, to: nat)
    requires from < to <= |blob| <= U64_LIMIT
    ensures Served(blob, |blob|, Some(PrintSpec(Closed(from, to - 1))), false)
         == Response(206, to - from, Some(ContentRange(from, to - 1, |blob|)), blob[from..to], false)
    ensures Fetched(blob, from, to) == blob[from..to]
  {
    ParsePrinted(Closed(from, to - 1), |blob|);
    ServedStretch(blob, PrintSpec(Closed(from, to - 1)), Satisfied(from, to - 1));
  }

  /** Positions 0 = cuts[0] < cuts[1] < … = size. */
  ghost predicate Cuts(cuts: seq<nat>, size: nat) {
    && cuts != [] && cuts[0] == 0 && cuts[|cuts| - 1] == size
    && forall i :: 0 <= i < |cuts| - 1 ==> cuts[i] < cuts[i + 1]
  }

  /** The body of the answer to `bytes=from-(to - 1)`. */
  function Fetched(blob: Data, from: nat, to: nat): Data
    requires to > 0
  {
    Served(blob, |blob|, Some(PrintSpec(Closed(from, to - 1))), false).body
  }

  function Pieces(blob: Data, cuts: seq<nat>, k: nat): seq<Data>
    requires k < |cuts| && forall i :: 0 < i <= k ==> cuts[i] > 0
  {
    if k == 0 then [] else Pieces(blob, cuts, k - 1) + [Fetched(blob, cuts[k - 1], cuts[k])]
  }

  lemma {:induction false} CutsIncrease(cuts: seq<nat>, size: nat, i: nat, j: nat)
    requires Cuts(cuts, size) && i <= j < |cuts|
    ensures cuts[i] <= cuts[j]
  {
    if i < j {
      CutsIncrease(cuts, size, i, j - 1);
    }
  }

  /** Consecutive ranges that cover the blob concatenate to the blob. */
  lemma RangesReassemble(blob: Data, cuts: seq<nat>)
    requires Cuts(cuts, |blob|) && |blob| < U64_LIMIT
    ensures forall i :: 0 < i < |cuts| ==> cuts[i] > 0
    ensures Concat(Pieces(blob, cuts, |cuts| - 1)) == blob
  {
    CutsPositive(cuts, |blob|);
    var k := |cuts| - 1;
    PiecesPrefix(blob, cuts, k);
    assert blob[..cuts[k]] == blob;
  }

  lemma CutsPositive(cuts: seq<nat>, size: nat)
    requires Cuts(cuts, size)
    ensures forall i :: 0 < i < |cuts| ==> cuts[i] > 0
  {
    forall i | 0 < i < |cuts|
      ensures cuts[i] > 0
    {
      assert cuts[i - 1] < cuts[i - 1 + 1];
    }
  }

  lemma {:induction false} PiecesPrefix(blob: Data, cuts: seq<nat>, k: nat)
    requires Cuts(cuts, |blob|) && |blob| < U64_LIMIT && k < |cuts|
    requires forall i :: 0 < i <= k ==> cuts[i] > 0
    ensures cuts[k] <= |blob| && Concat(Pieces(blob, cuts, k)) == blob[..cuts[k]]
  {
    CutsIncrease(cuts, |blob|, k, |cuts| - 1);
    if k > 0 {
      PiecesPrefix(blob, cuts, k - 1);
      assert cuts[k - 1] < cuts[k - 1 + 1];
      PushPiece(blob, Pieces(blob, cuts, k - 1), cuts[k - 1], cuts[k]);
    }
  }

  lemma PushPiece(blob: Data, pieces: seq<Data>, from: nat, to: nat)
    requires from < to <= |blob| < U64_LIMIT && Concat(pieces) == blob[..from]
    ensures Concat(pieces + [Fetched(blob, from, to)]) == blob[..to]
  {
    StretchServed(blob, from, to);
    PushStretch(blob, pieces, from, to);
  }

  lemma PushStretch(blob: Data, pieces: seq<Data>, from: nat, to: nat)
    requires from < to <= |blob| && Concat(pieces) == blob[..from]
    ensures Concat(pieces + [blob[from..to]]) == blob[..to]
  {
    ConcatPush(pieces, blob[from..to]);
    assert blob[..from] + blob[from..to] == blob[..to];
  }
}
