/** The Python text conversions the ledger relies on: `int(s)` on a command-line
    argument, `str(n)` on an SU count, `sep.join(parts)` and splitting a line at a
    separator (the reading side of the comma-separated output). */
module Text {

  datatype Option<+T> = None | Some(value: T)

  predicate IsDigit(c: char) {
    '0' <= c <= '9'
  }

  /** The ASCII whitespace that `int()` ignores around its argument. */
  predicate IsSpace(c: char) {
    c == ' ' || c == '\t' || c == '\n' || c == '\r' || c == '\U{B}' || c == '\U{C}'
  }

  /** Python's digit run: digits, where single underscores may separate two digits. */
  predicate IsDigitRun(s: string)
    decreases |s|
  {
    && |s| > 0
    && IsDigit(s[0])
    && (|s| == 1 || (if s[1] == '_' then IsDigitRun(s[2..]) else IsDigitRun(s[1..])))
  }

  /** The decimal value of a digit run, underscores ignored. */
  function DigitsValue(s: string): nat
    decreases |s|
  {
    if s == [] then 0
    else if IsDigit(s[|s| - 1]) then DigitsValue(s[..|s| - 1]) * 10 + (s[|s| - 1] as int - '0' as int)
    else DigitsValue(s[..|s| - 1])
  }

  /** Every character of `s` is whitespace. */
  predicate AllSpace(s: string) {
    forall i :: 0 <= i < |s| ==> IsSpace(s[i])
  }

  /** `int(s)` for a string: surrounding whitespace is skipped, then an optional sign and a
      digit run must make up the rest; `None` where Python raises `ValueError`. */
  function ParseInt(s: string): (r: Option<int>)
    ensures AllSpace(s) ==> r == None
    decreases |s|
  {
    if s != [] && IsSpace(s[0]) then ParseInt(s[1..])
    else if s != [] && IsSpace(s[|s| - 1]) then ParseInt(s[..|s| - 1])
    else if s != [] && (s[0] == '-' || s[0] == '+') then
      if IsDigitRun(s[1..]) then
        var v: int := DigitsValue(s[1..]);
        Some(if s[0] == '-' then -v else v)
      else None
    else if IsDigitRun(s) then Some(DigitsValue(s))
    else None
  }

  /** `t` is an optional sign followed by a digit run, and spells `n`. */
  predicate SignedRun(t: string, n: int) {
    && |t| > 0
    && if t[0] == '-' || t[0] == '+' then
         var v: int := DigitsValue(t[1..]);
         IsDigitRun(t[1..]) && n == (if t[0] == '-' then -v else v)
       else IsDigitRun(t) && n == DigitsValue(t)
  }

  /** `s[lo..hi]` is a signed digit run spelling `n`, with only whitespace around it. */
  predicate IntSyntaxAt(s: string, lo: int, hi: int, n: int) {
    0 <= lo < hi <= |s| && AllSpace(s[..lo]) && AllSpace(s[hi..]) && SignedRun(s[lo..hi], n)
  }

  /** The grammar `int()` accepts: whitespace, a signed digit run spelling `n`, whitespace. */
  ghost predicate IntSyntax(s: string, n: int) {
    exists lo, hi :: IntSyntaxAt(s, lo, hi, n)
  }

  /** A digit run ends in a digit. */
  lemma {:induction false} DigitRunEnds(s: string)
    requires IsDigitRun(s)
    ensures IsDigit(s[|s| - 1])
    decreases |s|
  {
    if |s| > 1 {
      if s[1] == '_' {
        DigitRunEnds(s[2..]);
      } else {
        DigitRunEnds(s[1..]);
      }
    }
  }

  /** A signed digit run neither starts nor ends with whitespace. */
  lemma SignedRunEdges(t: string, n: int)
    requires SignedRun(t, n)
    ensures !IsSpace(t[0]) && !IsSpace(t[|t| - 1])
  {
    if t[0] == '-' || t[0] == '+' {
      DigitRunEnds(t[1..]);
      assert t[|t| - 1] == t[1..][|t[1..]| - 1];
    } else {
      DigitRunEnds(t);
    }
  }

  /** Whitespace in front of a string in the grammar keeps it there. */
  lemma AddLeadingSpace(c: char, t: string, lo: int, hi: int, n: int)
    requires IsSpace(c) && IntSyntaxAt(t, lo, hi, n)
    ensures IntSyntaxAt([c] + t, lo + 1, hi + 1, n)
  {
    var s := [c] + t;
    assert s[lo + 1..hi + 1] == t[lo..hi];
    assert s[hi + 1..] == t[hi..];
    assert s[..lo + 1] == [c] + t[..lo];
  }

  /** Removing whitespace in front of a string in the grammar keeps it there. */
  lemma DropLeadingSpace(c: char, t: string, lo: int, hi: int, n: int)
    requires IntSyntaxAt([c] + t, lo, hi, n) && 0 < lo
    ensures IntSyntaxAt(t, lo - 1, hi - 1, n)
  {
    var s := [c] + t;
    assert t[lo - 1..hi - 1] == s[lo..hi];
    assert t[hi - 1..] == s[hi..];
    assert t[..lo - 1] == s[..lo][1..];
  }

  /** Whitespace in front keeps a string in the grammar, and removing it does too. */
  lemma LeadingSpace(s: string, n: int)
    requires s != [] && IsSpace(s[0])
    ensures IntSyntax(s, n) <==> IntSyntax(s[1..], n)
  {
    var t := s[1..];
    assert s == [s[0]] + t;
    if IntSyntax(t, n) {
      var lo, hi :| IntSyntaxAt(t, lo, hi, n);
      AddLeadingSpace(s[0], t, lo, hi, n);
    }
    if IntSyntax(s, n) {
      var lo, hi :| IntSyntaxAt(s, lo, hi, n);
      SignedRunEdges(s[lo..hi], n);
      DropLeadingSpace(s[0], t, lo, hi, n);
    }
  }

  /** Whitespace after a string in the grammar keeps it there. */
  lemma AddTrailingSpace(t: string, c: char, lo: int, hi: int, n: int)
    requires IsSpace(c) && IntSyntaxAt(t, lo, hi, n)
    ensures IntSyntaxAt(t + [c], lo, hi, n)
  {
    var s := t + [c];
    assert s[lo..hi] == t[lo..hi];
    assert s[..lo] == t[..lo];
    assert s[hi..] == t[hi..] + [c];
  }

  /** Removing whitespace after a string in the grammar keeps it there. */
  lemma DropTrailingSpace(t: string, c: char, lo: int, hi: int, n: int)
    requires IntSyntaxAt(t + [c], lo, hi, n) && hi < |t| + 1
    ensures IntSyntaxAt(t, lo, hi, n)
  {
    var s := t + [c];
    assert t[lo..hi] == s[lo..hi];
    assert t[..lo] == s[..lo];
    assert t[hi..] == s[hi..][..|t| - hi];
  }

  /** Whitespace at the end keeps a string in the grammar, and removing it does too. */
  lemma TrailingSpace(s: string, n: int)
    requires s != [] && IsSpace(s[|s| - 1])
    ensures IntSyntax(s, n) <==> IntSyntax(s[..|s| - 1], n)
  {
    var t, c := s[..|s| - 1], s[|s| - 1];
    assert s == t + [c];
    if IntSyntax(t, n) {
      var lo, hi :| IntSyntaxAt(t, lo, hi, n);
      AddTrailingSpace(t, c, lo, hi, n);
    }
    if IntSyntax(s, n) {
      var lo, hi :| IntSyntaxAt(s, lo, hi, n);
      SignedRunEdges(s[lo..hi], n);
      DropTrailingSpace(t, c, lo, hi, n);
    }
  }

  /** Without whitespace at either end, the whole string must be the signed digit run. */
  lemma NoSpaceEdges(s: string, n: int)
    requires s != [] && !IsSpace(s[0]) && !IsSpace(s[|s| - 1])
    ensures IntSyntax(s, n) <==> SignedRun(s, n)
  {
    if SignedRun(s, n) {
      assert s[..0] == [] && s[|s|..] == [] && s[0..|s|] == s;
      assert IntSyntaxAt(s, 0, |s|, n);
    }
    if IntSyntax(s, n) {
      var lo, hi :| IntSyntaxAt(s, lo, hi, n);
      assert lo == 0 && hi == |s|;
      assert s[lo..hi] == s;
    }
  }

  /** `int(s)` succeeds with `n` exactly when `s` follows the integer grammar and spells `n`. */
  lemma {:induction false} ParseIntSyntax(s: string, n: int)
    ensures ParseInt(s) == Some(n) <==> IntSyntax(s, n)
    decreases |s|
  {
    if s != [] && IsSpace(s[0]) {
      ParseIntSyntax(s[1..], n);
      LeadingSpace(s, n);
    } else if s != [] && IsSpace(s[|s| - 1]) {
      ParseIntSyntax(s[..|s| - 1], n);
      TrailingSpace(s, n);
    } else if s != [] {
      NoSpaceEdges(s, n);
    } else {
      assert !IntSyntax(s, n);
    }
  }

  function DigitChar(d: nat): (c: char)
    requires d < 10
    ensures IsDigit(c) && c as int - '0' as int == d
  {
    ('0' as int + d) as char
  }

  /** `str(n)` for a natural number: its decimal digits, most significant first. */
  function NatToString(n: nat): (r: string)
    ensures |r| > 0
    ensures forall i :: 0 <= i < |r| ==> IsDigit(r[i])
    decreases n
  {
    if n < 10 then [DigitChar(n)] else NatToString(n / 10) + [DigitChar(n % 10)]
  }

  /** `str(n)` for an integer. */
  function IntToString(n: int): (r: string)
    ensures |r| > 0
    ensures r[0] == '-' <==> n < 0
    ensures forall i :: 0 <= i < |r| ==> IsDigit(r[i]) || (i == 0 && r[i] == '-')
  {
    if n < 0 then "-" + NatToString(-n) else NatToString(n)
  }

  lemma {:induction false} NatToStringValue(n: nat)
    ensures DigitsValue(NatToString(n)) == n
    decreases n
  {
    var s := NatToString(n);
    if n >= 10 {
      assert s[..|s| - 1] == NatToString(n / 10);
      NatToStringValue(n / 10);
    } else {
      assert s[..0] == [];
    }
  }

  lemma {:induction false} DigitsAreRun(s: string)
    requires |s| > 0 && forall i :: 0 <= i < |s| ==> IsDigit(s[i])
    ensures IsDigitRun(s)
    decreases |s|
  {
    if |s| > 1 {
      DigitsAreRun(s[1..]);
    }
  }

  /** `int(str(n)) == n`: every SU count written out reads back as itself. */
  lemma ParseIntToString(n: int)
    ensures ParseInt(IntToString(n)) == Some(n)
  {
    var s := IntToString(n);
    assert !IsSpace(s[0]) && !IsSpace(s[|s| - 1]);
    if n < 0 {
      assert s[1..] == NatToString(-n);
      DigitsAreRun(s[1..]);
      NatToStringValue(-n);
    } else {
      DigitsAreRun(s);
      NatToStringValue(n);
    }
  }

  /** `sep.join(parts)`. */
  function Join(parts: seq<string>, sep: string): (r: string)
    ensures parts == [] ==> r == ""
    ensures |parts| > 0 ==> parts[0] <= r
  {
    if parts == [] then ""
    else if |parts| == 1 then parts[0]
    else parts[0] + sep + Join(parts[1..], sep)
  }

  /** `s.split(sep)` for a one-character separator. */
  function Split(s: string, sep: char): (r: seq<string>)
    ensures |r| > 0
    decreases |s|
  {
    if s == [] then [""]
    else
      var rest := Split(s[1..], sep);
      if s[0] == sep then [""] + rest else [[s[0]] + rest[0]] + rest[1..]
  }

  lemma {:induction false} SplitAfter(a: string, b: string, sep: char)
    requires sep !in a
    ensures Split(a + [sep] + b, sep) == [a] + Split(b, sep)
    decreases |a|
  {
    if a == [] {
      assert (a + [sep] + b)[1..] == b;
    } else {
      assert (a + [sep] + b)[1..] == a[1..] + [sep] + b;
      SplitAfter(a[1..], b, sep);
      assert [a[0]] + a[1..] == a;
    }
  }

  lemma {:induction false} SplitWithout(a: string, sep: char)
    requires sep !in a
    ensures Split(a, sep) == [a]
    decreases |a|
  {
    if a != [] {
      SplitWithout(a[1..], sep);
      assert [a[0]] + a[1..] == a;
    }
  }

  /** Splitting a joined line gives back its fields, as long as no field holds the separator. */
  lemma {:induction false} SplitJoin(parts: seq<string>, sep: char)
    requires |parts| > 0
    requires forall i :: 0 <= i < |parts| ==> sep !in parts[i]
    ensures Split(Join(parts, [sep]), sep) == parts
    decreases |parts|
  {
    if |parts| == 1 {
      SplitWithout(parts[0], sep);
    } else {
      SplitAfter(parts[0], Join(parts[1..], [sep]), sep);
      SplitJoin(parts[1..], sep);
    }
  }

  /** The decimal renderings of a sequence of integers. */
  function IntStrings(values: seq<int>): (r: seq<string>)
    ensures |r| == |values|
    ensures forall i :: 0 <= i < |values| ==> r[i] == IntToString(values[i])
  {
    seq(|values|, i requires 0 <= i < |values| => IntToString(values[i]))
  }

  /** Every rendered integer reads back as the integer it renders. */
  lemma IntStringsDecode(values: seq<int>)
    ensures forall i :: 0 <= i < |values| ==> ParseInt(IntStrings(values)[i]) == Some(values[i])
  {
    forall i | 0 <= i < |values| {
      ParseIntToString(values[i]);
    }
  }

  /** A rendered integer never holds a comma. */
  lemma IntStringsHaveNoComma(values: seq<int>)
    ensures forall i :: 0 <= i < |values| ==> ',' !in IntStrings(values)[i]
  {
  }

  /** `tag + "," + ",".join(fields)` splits at commas into the tag followed by the fields. */
  lemma CsvLineFields(tag: string, fields: seq<string>)
    requires ',' !in tag && |fields| > 0
    requires forall i :: 0 <= i < |fields| ==> ',' !in fields[i]
    ensures Split(tag + "," + Join(fields, ","), ',') == [tag] + fields
  {
    SplitAfter(tag, Join(fields, ","), ',');
    assert tag + "," + Join(fields, ",") == tag + [','] + Join(fields, [',']);
    SplitJoin(fields, ',');
  }
}
