/**
 * The JavaScript string primitives the components rely on, with the semantics the
 * ECMAScript standard gives them: `trim`, `toLowerCase`/`toUpperCase` (ASCII letters only),
 * `includes`, `split` on a one-character separator, `parseInt(_, 10)`, number-to-string,
 * the `<` comparison on strings, and truthiness of string values.
 */
module JsString {
  import opened Wrappers

  // ---------------------------------------------------------------- whitespace and trim

  /** LineTerminator code points: the characters a regular-expression `.` does not match. */
  predicate IsLineTerminator(c: char) {
    c == '\n' || c == '\r' || c == '\U{2028}' || c == '\U{2029}'
  }

  /** WhiteSpace and LineTerminator code points: what `trim` strips and `parseInt` skips. */
  predicate IsSpace(c: char) {
    || IsLineTerminator(c)
    || c == '\t' || c == '\U{000B}' || c == '\U{000C}' || c == ' ' || c == '\U{00A0}'
    || c == '\U{1680}' || ('\U{2000}' <= c <= '\U{200A}') || c == '\U{202F}' || c == '\U{205F}'
    || c == '\U{3000}' || c == '\U{FEFF}'
  }

  /** `r` is what is left of `s` once its leading whitespace is dropped. */
  predicate StartTrimmed(s: string, r: string) {
    && |r| <= |s| && r == s[|s| - |r|..]
    && (forall i :: 0 <= i < |s| - |r| ==> IsSpace(s[i]))
    && (|r| > 0 ==> !IsSpace(r[0]))
  }

  /** `r` is what is left of `s` once its trailing whitespace is dropped. */
  predicate EndTrimmed(s: string, r: string) {
    && |r| <= |s| && r == s[..|r|]
    && (forall i :: |r| <= i < |s| ==> IsSpace(s[i]))
    && (|r| > 0 ==> !IsSpace(r[|r| - 1]))
  }

  /** `trimStart`: the suffix left after dropping leading whitespace. */
  function TrimStart(s: string): (r: string)
    ensures StartTrimmed(s, r)
    decreases |s|
  {
    if |s| > 0 && IsSpace(s[0]) then TrimStart(s[1..]) else s
  }

  /** `trimEnd`: the prefix left after dropping trailing whitespace. */
  function TrimEnd(s: string): (r: string)
    ensures EndTrimmed(s, r)
    decreases |s|
  {
    if |s| > 0 && IsSpace(s[|s| - 1]) then TrimEnd(s[..|s| - 1]) else s
  }

  /** `String.prototype.trim`. */
  function Trim(s: string): (r: string)
    ensures r == "" <==> forall i :: 0 <= i < |s| ==> IsSpace(s[i])
    ensures |r| > 0 ==> !IsSpace(r[0]) && !IsSpace(r[|r| - 1])
    ensures |r| <= |s|
  {
    var t := TrimStart(s);
    var r := TrimEnd(t);
    TwoSidedTrim(s, t, r);
    r
  }

  /** What dropping whitespace at the front and then at the back leaves. */
  lemma TwoSidedTrim(s: string, t: string, r: string)
    requires StartTrimmed(s, t) && EndTrimmed(t, r)
    ensures r == "" <==> forall i :: 0 <= i < |s| ==> IsSpace(s[i])
    ensures |r| > 0 ==> !IsSpace(r[0]) && !IsSpace(r[|r| - 1])
    ensures |r| <= |s|
  {
    assert r == "" ==> t == "";
  }

  /** `trim` keeps a contiguous slice of its input and drops only whitespace around it. */
  lemma TrimContent(s: string)
    ensures exists i, j :: TrimmedSlice(s, Trim(s), i, j)
  {
    var t := TrimStart(s);
    SpacedSlice(s, t, Trim(s));
    assert TrimmedSlice(s, Trim(s), |s| - |t|, |s| - |t| + |Trim(s)|);
  }

  /** `r` is `s[i..j]` and everything of `s` outside that slice is whitespace. */
  predicate TrimmedSlice(s: string, r: string, i: int, j: int) {
    && 0 <= i <= j <= |s| && r == s[i..j]
    && (forall k :: 0 <= k < i ==> IsSpace(s[k]))
    && (forall k :: j <= k < |s| ==> IsSpace(s[k]))
  }

  /** Whitespace dropped at the front and then at the back leaves a slice surrounded by whitespace. */
  lemma SpacedSlice(s: string, t: string, r: string)
    requires StartTrimmed(s, t) && EndTrimmed(t, r)
    ensures TrimmedSlice(s, r, |s| - |t|, |s| - |t| + |r|)
  {
    var i := |s| - |t|;
    forall k | i + |r| <= k < |s|
      ensures IsSpace(s[k])
    {
      assert s[k] == t[k - i];
    }
  }

  /** A string that is blank after trimming consists of whitespace only, and `trim` is idempotent. */
  lemma TrimIdempotent(s: string)
    ensures Trim(Trim(s)) == Trim(s)
  {
    var r := Trim(s);
    if |r| > 0 {
      assert TrimStart(r) == r;
      assert TrimEnd(r) == r;
    }
  }

  // ---------------------------------------------------------------- case mapping

  /** `toLowerCase` on one character, for the ASCII letters. */
  function LowerChar(c: char): char {
    if 'A' <= c <= 'Z' then (c as int + 32) as char else c
  }

  /** `toUpperCase` on one character, for the ASCII letters. */
  function UpperChar(c: char): char {
    if 'a' <= c <= 'z' then (c as int - 32) as char else c
  }

  function Lower(s: string): (r: string)
    ensures |r| == |s|
  {
    seq(|s|, i requires 0 <= i < |s| => LowerChar(s[i]))
  }

  function Upper(s: string): (r: string)
    ensures |r| == |s|
  {
    seq(|s|, i requires 0 <= i < |s| => UpperChar(s[i]))
  }

  /** Lower-casing changes no whitespace, so it commutes with the blank test the search box uses. */
  lemma LowerKeepsSpaces(s: string)
    ensures forall i :: 0 <= i < |s| ==> (IsSpace(Lower(s)[i]) <==> IsSpace(s[i]))
  {
  }

  // ---------------------------------------------------------------- includes

  /** `s.includes(t)`: `t` occurs in `s` at some position. */
  predicate Includes(s: string, t: string) {
    exists i :: 0 <= i <= |s| && t <= s[i..]
  }

  /** Every string includes the empty string. */
  lemma IncludesEmpty(s: string)
    ensures Includes(s, "")
  {
    assert "" <= s[0..];
  }

  /** A string includes itself. */
  lemma IncludesSelf(s: string)
    ensures Includes(s, s)
  {
    assert s <= s[0..];
  }

  // ---------------------------------------------------------------- split and join

  /** Position of the first `c` in `s`. */
  function IndexOf(s: string, c: char): (r: nat)
    requires c in s
    ensures r < |s| && s[r] == c && c !in s[..r]
  {
    if s[0] == c then 0
    else
      assert c in s[1..] by { assert s == [s[0]] + s[1..]; }
      var k := IndexOf(s[1..], c);
      assert s[..k + 1] == [s[0]] + s[1..][..k];
      k + 1
  }

  /** `s.split(sep)` for a one-character separator. */
  function Split(s: string, sep: char): (parts: seq<string>)
    ensures |parts| >= 1
    ensures forall k :: 0 <= k < |parts| ==> sep !in parts[k]
    decreases |s|
  {
    if sep in s then
      var i := IndexOf(s, sep);
      [s[..i]] + Split(s[i + 1..], sep)
    else [s]
  }

  /** `parts.join(sep)` for a one-character separator. */
  function Join(parts: seq<string>, sep: char): string
    requires |parts| >= 1
    decreases |parts|
  {
    if |parts| == 1 then parts[0] else parts[0] + [sep] + Join(parts[1..], sep)
  }

  /** Splitting at the first separator: the text before it is the first piece. */
  lemma SplitFirst(a: string, sep: char, b: string)
    requires sep !in a
    ensures Split(a + [sep] + b, sep) == [a] + Split(b, sep)
  {
    var s := a + [sep] + b;
    assert s[|a|] == sep;
    var i := IndexOf(s, sep);
    assert i == |a|;
    assert s[..i] == a;
    assert s[i + 1..] == b;
  }

  /** Joining a piece in front of a non-empty list puts one separator between them. */
  lemma JoinCons(head: string, tail: seq<string>, sep: char)
    requires |tail| >= 1
    ensures Join([head] + tail, sep) == head + [sep] + Join(tail, sep)
  {
    assert ([head] + tail)[1..] == tail;
  }

  /** Joining the pieces of a split gives back the original string. */
  lemma {:induction false} SplitJoin(s: string, sep: char)
    ensures Join(Split(s, sep), sep) == s
    decreases |s|
  {
    if sep in s {
      var i := IndexOf(s, sep);
      var rest := s[i + 1..];
      SplitJoin(rest, sep);
      assert Split(s, sep) == [s[..i]] + Split(rest, sep);
      JoinCons(s[..i], Split(rest, sep), sep);
      assert s == s[..i] + [sep] + rest;
    }
  }

  /** Splitting a join of separator-free pieces gives back the pieces. */
  lemma {:induction false} JoinSplit(parts: seq<string>, sep: char)
    requires |parts| >= 1
    requires forall k :: 0 <= k < |parts| ==> sep !in parts[k]
    ensures Split(Join(parts, sep), sep) == parts
    decreases |parts|
  {
    if |parts| > 1 {
      JoinSplit(parts[1..], sep);
      SplitFirst(parts[0], sep, Join(parts[1..], sep));
      assert parts == [parts[0]] + parts[1..];
    }
  }

  /** The first piece of a split is the text before the first separator, or the whole string. */
  lemma SplitHead(s: string, sep: char)
    ensures sep in s ==> Split(s, sep)[0] == s[..IndexOf(s, sep)]
    ensures sep !in s ==> Split(s, sep) == [s]
  {
  }

  // ---------------------------------------------------------------- numbers

  predicate IsDigit(c: char) {
    '0' <= c <= '9'
  }

  predicate AllDigits(s: string) {
    forall i :: 0 <= i < |s| ==> IsDigit(s[i])
  }

  function DigitValue(c: char): nat
    requires IsDigit(c)
  {
    c as int - '0' as int
  }

  function DigitChar(d: nat): (c: char)
    requires d < 10
    ensures IsDigit(c) && DigitValue(c) == d
  {
    ('0' as int + d) as char
  }

  /** The value of a decimal numeral, most significant digit first. */
  function DigitsValue(s: string): nat
    requires AllDigits(s)
    decreases |s|
  {
    if |s| == 0 then 0 else DigitsValue(s[..|s| - 1]) * 10 + DigitValue(s[|s| - 1])
  }

  /** The decimal numeral JavaScript prints for a non-negative integer. */
  function NatToString(n: nat): (r: string)
    ensures |r| >= 1 && AllDigits(r)
    ensures DigitsValue(r) == n
    ensures n > 0 ==> r[0] != '0'
    decreases n
  {
    if n < 10 then [DigitChar(n)]
    else
      var r := NatToString(n / 10) + [DigitChar(n % 10)];
      assert r[..|r| - 1] == NatToString(n / 10);
      r
  }

  /** The numeral JavaScript prints for an integer. */
  function IntToString(i: int): (r: string)
    ensures i >= 0 ==> r == NatToString(i)
    ensures i < 0 ==> r == "-" + NatToString(-i)
  {
    if i < 0 then "-" + NatToString(-i) else NatToString(i)
  }

  /** The numerals of the two hours the 12-hour clock prints most. */
  lemma SmallNumerals()
    ensures NatToString(1) == "1" && NatToString(12) == "12"
    ensures IntToString(1) == "1" && IntToString(12) == "12"
  {
    assert NatToString(1) == [DigitChar(1)];
    assert NatToString(12) == NatToString(1) + [DigitChar(2)];
  }

  /** The longest prefix of decimal digits. */
  function DigitPrefix(s: string): (r: string)
    ensures r <= s && AllDigits(r)
    ensures |r| < |s| ==> !IsDigit(s[|r|])
    decreases |s|
  {
    if |s| > 0 && IsDigit(s[0]) then [s[0]] + DigitPrefix(s[1..]) else ""
  }

  /**
   * `parseInt(s, 10)`: skip leading whitespace, read an optional sign, then the longest run of
   * decimal digits; None stands for NaN (no digit after the sign).
   */
  function ParseInt(s: string): (r: Option<int>)
    ensures r.None? <==> |DigitPrefix(Unsigned(TrimStart(s)))| == 0
    ensures r.Some? && r.value < 0 ==> |TrimStart(s)| > 0 && TrimStart(s)[0] == '-'
  {
    ReadSigned(TrimStart(s))
  }

  /** The part of `parseInt` after the whitespace: an optional sign, then the run of digits. */
  function ReadSigned(t: string): (r: Option<int>)
    ensures r.None? <==> |DigitPrefix(Unsigned(t))| == 0
    ensures r.Some? && r.value < 0 ==> |t| > 0 && t[0] == '-'
  {
    var digits := DigitPrefix(Unsigned(t));
    if |digits| == 0 then None
    else
      var v: int := DigitsValue(digits);
      if |t| > 0 && t[0] == '-' then Some(-v) else Some(v)
  }

  /** The text after an optional leading sign. */
  function Unsigned(t: string): (r: string)
    ensures |t| > 0 && (t[0] == '-' || t[0] == '+') ==> r == t[1..]
    ensures !(|t| > 0 && (t[0] == '-' || t[0] == '+')) ==> r == t
  {
    if |t| > 0 && (t[0] == '-' || t[0] == '+') then t[1..] else t
  }

  /** A non-empty numeral parses to its value. */
  lemma ParseDigits(d: string)
    requires |d| > 0 && AllDigits(d)
    ensures ParseInt(d) == Some(DigitsValue(d))
  {
    assert IsDigit(d[0]);
    assert !IsSpace(d[0]);
    assert TrimStart(d) == d;
    assert Unsigned(d) == d;
    DigitPrefixAll(d);
  }

  lemma {:induction false} DigitPrefixAll(d: string)
    requires AllDigits(d)
    ensures DigitPrefix(d) == d
    decreases |d|
  {
    if |d| > 0 {
      DigitPrefixAll(d[1..]);
    }
  }

  /** The optional sign `parseInt` accepts in front of the digits. */
  datatype Sign = NoSign | Plus | Minus

  function SignText(sg: Sign): string {
    match sg
    case NoSign => ""
    case Plus => "+"
    case Minus => "-"
  }

  /**
   * `parseInt` reads past leading whitespace and one optional sign, takes the whole run of digits
   * that follows, and ignores whatever comes after the first non-digit; `v` is the value of the digits.
   */
  lemma ParseIntValue(ws: string, sg: Sign, d: string, rest: string, v: int)
    requires forall k :: 0 <= k < |ws| ==> IsSpace(ws[k])
    requires |d| > 0 && AllDigits(d) && v == DigitsValue(d)
    requires |rest| == 0 || !IsDigit(rest[0])
    ensures ParseInt(ws + SignText(sg) + d + rest) == Some(if sg == Minus then -v else v)
  {
    var u := SignText(sg) + d + rest;
    ConcatFour(ws, SignText(sg), d, rest);
    SignedNumeral(sg, d, rest);
    TrimStartSpaces(ws, u);
    ReadSignedValue(sg, d, rest, v);
  }

  /** After the whitespace: the sign decides the sign of the result, the digit run its magnitude `v`. */
  lemma ReadSignedValue(sg: Sign, d: string, rest: string, v: int)
    requires |d| > 0 && AllDigits(d) && v == DigitsValue(d)
    requires |rest| == 0 || !IsDigit(rest[0])
    ensures ReadSigned(SignText(sg) + d + rest) == Some(if sg == Minus then -v else v)
  {
    SignedNumeral(sg, d, rest);
    DigitPrefixStop(d, rest);
    ReadSignedParts(SignText(sg) + d + rest, d, v, sg == Minus);
  }

  /** `ReadSigned` in terms of its digit run `digits` of value `v` and whether `t` starts with `-`. */
  lemma ReadSignedParts(t: string, digits: string, v: int, negative: bool)
    requires DigitPrefix(Unsigned(t)) == digits && |digits| > 0 && v == DigitsValue(digits)
    requires |t| > 0 && (t[0] == '-' <==> negative)
    ensures ReadSigned(t) == Some(if negative then -v else v)
  {
  }

  /** Regrouping a four-part concatenation. */
  lemma ConcatFour(a: string, b: string, c: string, e: string)
    ensures a + b + c + e == a + (b + c + e)
  {
  }

  /** A sign (or none) followed by a numeral: not whitespace at the front, and the sign is all `Unsigned` drops. */
  lemma SignedNumeral(sg: Sign, d: string, rest: string)
    requires |d| > 0 && AllDigits(d)
    ensures var u := SignText(sg) + d + rest; |u| > 0 && !IsSpace(u[0]) && Unsigned(u) == d + rest
    ensures var u := SignText(sg) + d + rest; u[0] == '-' <==> sg == Minus
  {
    var u := SignText(sg) + d + rest;
    assert IsDigit(d[0]);
    if sg == NoSign {
      assert u == d + rest;
    } else {
      assert u[0] == SignText(sg)[0];
      assert u[1..] == d + rest;
    }
  }

  /** Whitespace in front of a string that starts with a non-space is exactly what `trimStart` drops. */
  lemma {:induction false} TrimStartSpaces(ws: string, u: string)
    requires forall k :: 0 <= k < |ws| ==> IsSpace(ws[k])
    requires |u| == 0 || !IsSpace(u[0])
    ensures TrimStart(ws + u) == u
    decreases |ws|
  {
    if |ws| > 0 {
      assert (ws + u)[1..] == ws[1..] + u;
      TrimStartSpaces(ws[1..], u);
    } else {
      assert ws + u == u;
    }
  }

  /** The digit run of a numeral followed by a non-digit is the numeral. */
  lemma {:induction false} DigitPrefixStop(d: string, rest: string)
    requires AllDigits(d)
    requires |rest| == 0 || !IsDigit(rest[0])
    ensures DigitPrefix(d + rest) == d
    decreases |d|
  {
    if |d| > 0 {
      assert (d + rest)[1..] == d[1..] + rest;
      DigitPrefixStop(d[1..], rest);
    } else {
      assert d + rest == rest;
    }
  }

  /** Printing a non-negative integer and parsing it back gives the integer. */
  lemma ParsePrinted(n: nat)
    ensures ParseInt(NatToString(n)) == Some(n)
  {
    ParseDigits(NatToString(n));
  }

  // ---------------------------------------------------------------- comparison

  /** JavaScript's `a < b` on strings: lexicographic, a proper prefix being smaller. */
  predicate LexLess(a: string, b: string)
    decreases |a|
  {
    if |b| == 0 then false
    else if |a| == 0 then true
    else if a[0] != b[0] then a[0] < b[0]
    else LexLess(a[1..], b[1..])
  }

  /** Exactly one of `a < b`, `a == b`, `b < a` holds. */
  lemma {:induction false} LexTrichotomy(a: string, b: string)
    ensures LexLess(a, b) || a == b || LexLess(b, a)
    ensures !(LexLess(a, b) && LexLess(b, a))
    ensures LexLess(a, b) ==> a != b
    decreases |a|
  {
    if |a| > 0 && |b| > 0 && a[0] == b[0] {
      LexTrichotomy(a[1..], b[1..]);
      if a[1..] == b[1..] {
        assert a == [a[0]] + a[1..] && b == [b[0]] + b[1..];
      }
    }
  }

  /** String `<` is transitive; with `LexTrichotomy` it is a strict total order. */
  lemma {:induction false} LexTransitive(a: string, b: string, c: string)
    requires LexLess(a, b) && LexLess(b, c)
    ensures LexLess(a, c)
    decreases |a|
  {
    if |a| > 0 && a[0] == b[0] && b[0] == c[0] {
      LexTransitive(a[1..], b[1..], c[1..]);
    }
  }

  // ---------------------------------------------------------------- truthiness

  /** A string-valued expression that is truthy: present and non-empty. */
  predicate Truthy(o: Option<string>) {
    o.Some? && o.value != ""
  }

  /** `o || fallback` for a string-valued expression. */
  function OrElse(o: Option<string>, fallback: string): string {
    if Truthy(o) then o.value else fallback
  }

  // ---------------------------------------------------------------- initials

  /** `words.map(n => n[0]).join('')`: the first character of every non-empty word. */
  function Heads(words: seq<string>): (r: string)
    ensures |r| <= |words|
    decreases |words|
  {
    if |words| == 0 then ""
    else (if |words[0]| > 0 then [words[0][0]] else "") + Heads(words[1..])
  }

  /** `i` is the position of the first non-space character of `s`. */
  predicate FirstNonSpace(s: string, i: int) {
    0 <= i < |s| && s[i] != ' ' && forall j :: 0 <= j < i ==> s[j] == ' '
  }

  /**
   * `name.split(' ').map(n => n[0]).join('').toUpperCase()` cut to two characters: the shared
   * core of both avatar-initials helpers.
   */
  function WordInitials(name: string): (r: string)
    ensures |r| <= 2
    ensures r == "" <==> forall i :: 0 <= i < |name| ==> name[i] == ' '
    ensures |r| > 0 ==> exists i :: FirstNonSpace(name, i) && r[0] == UpperChar(name[i])
  {
    HeadsOfSplit(name);
    FirstTwoUpper(Heads(Split(name, ' ')))
  }

  /** `heads.toUpperCase().slice(0, 2)`. */
  function FirstTwoUpper(heads: string): (r: string)
    ensures |r| <= 2 && |r| <= |heads|
    ensures r == "" <==> heads == ""
    ensures forall k :: 0 <= k < |r| ==> r[k] == UpperChar(heads[k])
  {
    var u := Upper(heads);
    if |u| <= 2 then u else u[..2]
  }

  /** The heads of the words of `s` are empty exactly when `s` is all spaces; otherwise the first head is the first non-space of `s`. */
  lemma {:induction false} HeadsOfSplit(s: string)
    ensures Heads(Split(s, ' ')) == "" <==> forall i :: 0 <= i < |s| ==> s[i] == ' '
    ensures Heads(Split(s, ' ')) != "" ==> exists i :: FirstNonSpace(s, i) && Heads(Split(s, ' '))[0] == s[i]
    decreases |s|
  {
    if ' ' in s {
      var i := IndexOf(s, ' ');
      var rest := s[i + 1..];
      HeadsOfSplit(rest);
      HeadsCons(s[..i], Split(rest, ' '));
      if i > 0 {
        assert s[..i][0] == s[0];
        assert FirstNonSpace(s, 0);
      } else {
        LeadingSpace(s);
      }
    } else if |s| > 0 {
      assert s[0] != ' ';
      assert FirstNonSpace(s, 0);
    }
  }

  /** The heads of a word list: the first word's first character (if any) before the others' heads. */
  lemma HeadsCons(w: string, ws: seq<string>)
    ensures Heads([w] + ws) == (if |w| > 0 then [w[0]] else "") + Heads(ws)
  {
    assert ([w] + ws)[1..] == ws;
  }

  /** Dropping a leading space shifts every position by one and changes neither all-spaces nor the first non-space character. */
  lemma LeadingSpace(s: string)
    requires |s| > 0 && s[0] == ' '
    ensures (forall i :: 0 <= i < |s| ==> s[i] == ' ') <==> (forall i :: 0 <= i < |s[1..]| ==> s[1..][i] == ' ')
    ensures forall j :: FirstNonSpace(s[1..], j) ==> FirstNonSpace(s, j + 1) && s[1..][j] == s[j + 1]
  {
    forall j | FirstNonSpace(s[1..], j)
      ensures FirstNonSpace(s, j + 1)
    {
      forall k | 0 <= k < j + 1 ensures s[k] == ' ' {
        if k > 0 { assert s[k] == s[1..][k - 1]; }
      }
    }
  }

  /** The first initial is the upper-cased first non-space character of the name. */
  lemma WordInitialsFirst(name: string, i: nat)
    requires FirstNonSpace(name, i)
    ensures |WordInitials(name)| > 0 && WordInitials(name)[0] == UpperChar(name[i])
  {
  }

  /**
   * A first word `a` followed by a space and a second word starting at `b[0]` gives exactly the
   * two upper-cased word heads, whatever follows them.
   */
  lemma WordInitialsTwoWords(a: string, b: string)
    requires |a| > 0 && ' ' !in a
    requires |b| > 0 && b[0] != ' '
    ensures WordInitials(a + [' '] + b) == [UpperChar(a[0]), UpperChar(b[0])]
  {
    SplitFirst(a, ' ', b);
    var tail := Heads(Split(b, ' '));
    assert FirstNonSpace(b, 0);
    HeadsOfSplit(b);
    var j :| FirstNonSpace(b, j) && tail[0] == b[j];
    assert j == 0;
    assert Heads(Split(a + [' '] + b, ' ')) == [a[0]] + tail by {
      assert ([a] + Split(b, ' '))[1..] == Split(b, ' ');
    }
  }

  /** The initials of a full name. */
  lemma WordInitialsExample()
    ensures WordInitials("ada lovelace") == "AL"
  {
    var first, last := "ada", "lovelace";
    assert "ada lovelace" == first + [' '] + last;
    WordInitialsTwoWords(first, last);
  }

  /** A leading space gives an empty word, which contributes no initial. */
  lemma WordInitialsSkipSpace(s: string)
    ensures WordInitials([' '] + s) == WordInitials(s)
  {
    assert [' '] + s == "" + [' '] + s;
    SplitFirst("", ' ', s);
    HeadsCons("", Split(s, ' '));
    assert Heads(Split([' '] + s, ' ')) == Heads(Split(s, ' '));
  }

  /** A single word gives its upper-cased first letter. */
  lemma WordInitialsOneWord(w: string)
    requires |w| > 0 && ' ' !in w
    ensures WordInitials(w) == [UpperChar(w[0])]
  {
    assert Split(w, ' ') == [w];
    HeadsCons(w, []);
  }
}
