/** The JavaScript string built-ins the core relies on, with their ECMAScript meaning:
    the `\s` class, `trim`, `includes`, `split`, `Number.parseInt`, a case-insensitive
    suffix match, and the runtime's Unicode case and decomposition data. */
module JsText {
  import opened Wrappers

  /** The regular-expression class `\s`, which is also the set `trim()` removes:
      ECMAScript's WhiteSpace (TAB, VT, FF, ZWNBSP and every space separator) and LineTerminator. */
  predicate IsSpace(c: char) {
    || c == '\t' || c == '\n' || c == '\U{000B}' || c == '\U{000C}' || c == '\r'
    || c == ' ' || c == '\U{00A0}' || c == '\U{1680}' || ('\U{2000}' <= c <= '\U{200A}')
    || c == '\U{2028}' || c == '\U{2029}' || c == '\U{202F}' || c == '\U{205F}'
    || c == '\U{3000}' || c == '\U{FEFF}'
  }

  predicate NoSpaces(s: string) {
    forall i :: 0 <= i < |s| ==> !IsSpace(s[i])
  }

  /** `s` without its leading run of characters that satisfy `p`. */
  function DropRun(s: string, p: char -> bool): (r: string)
    ensures |r| <= |s| && r == s[|s| - |r|..]
    ensures forall i :: 0 <= i < |s| - |r| ==> p(s[i])
    ensures r == [] || !p(r[0])
    ensures s != [] && p(s[0]) ==> |r| < |s|
    decreases |s|
  {
    if s != [] && p(s[0]) then
      var r := DropRun(s[1..], p);
      assert s[1..][|s| - 1 - |r|..] == s[|s| - |r|..];
      assert forall i :: 1 <= i < |s| - |r| ==> s[i] == s[1..][i - 1];
      r
    else s
  }

  /** `s` without its trailing whitespace. */
  function TrimEnd(s: string): (r: string)
    ensures |r| <= |s| && r == s[..|r|]
    ensures forall i :: |r| <= i < |s| ==> IsSpace(s[i])
    ensures r == [] || !IsSpace(r[|r| - 1])
    decreases |s|
  {
    if s != [] && IsSpace(s[|s| - 1]) then TrimEnd(s[..|s| - 1]) else s
  }

  /** `!s.trim()`: the string is empty or all whitespace. */
  predicate IsBlank(s: string) {
    forall i :: 0 <= i < |s| ==> IsSpace(s[i])
  }

  /** The number of whitespace characters `s` starts with; LeadingSpacesRun states it. */
  function LeadingSpaces(s: string): (n: nat)
    ensures n <= |s|
  {
    |s| - |DropRun(s, IsSpace)|
  }

  /** `s` starts with exactly `LeadingSpaces(s)` whitespace characters: they are all
      whitespace, and the character after them is not. */
  lemma LeadingSpacesRun(s: string)
    ensures IsBlank(s[..LeadingSpaces(s)])
    ensures LeadingSpaces(s) == |s| || !IsSpace(s[LeadingSpaces(s)])
  {
    var t := DropRun(s, IsSpace);
    assert t != [] ==> s[|s| - |t|] == t[0];
  }

  /** `r` occurs in `s` at offset `a`. */
  predicate SliceAt(s: string, a: nat, r: string) {
    a + |r| <= |s| && r == s[a..a + |r|]
  }

  /** `s.trim()`: the part of `s` that starts right after its leading whitespace and is
      followed by nothing but whitespace, and that neither starts nor ends with whitespace. */
  function Trim(s: string): (r: string)
    ensures r == [] || (!IsSpace(r[0]) && !IsSpace(r[|r| - 1]))
    ensures IsBlank(s[..LeadingSpaces(s)])
    ensures SliceAt(s, LeadingSpaces(s), r)
    ensures IsBlank(s[LeadingSpaces(s) + |r|..])
  {
    var t := DropRun(s, IsSpace);
    LeadingSpacesRun(s);
    InnerSlice(s, t, TrimEnd(t), LeadingSpaces(s));
    TrimEnd(t)
  }

  /** Dropping a blank prefix and then a blank suffix leaves a slice of `s`, at the offset
      where the prefix ends, that neither starts nor ends with whitespace and is followed
      only by whitespace. */
  lemma InnerSlice(s: string, t: string, r: string, a: nat)
    requires a == |s| - |t|
    requires |t| <= |s| && t == s[|s| - |t|..] && forall i :: 0 <= i < |s| - |t| ==> IsSpace(s[i])
    requires t == [] || !IsSpace(t[0])
    requires |r| <= |t| && r == t[..|r|] && forall i :: |r| <= i < |t| ==> IsSpace(t[i])
    requires r == [] || !IsSpace(r[|r| - 1])
    ensures r == [] || (!IsSpace(r[0]) && !IsSpace(r[|r| - 1]))
    ensures SliceAt(s, a, r)
    ensures IsBlank(s[a + |r|..])
  {
    assert r != [] ==> r[0] == t[0];
    assert s[a + |r|..] == t[|r|..];
    assert r == s[a..a + |r|];
  }

  /** `s.trim()` is empty exactly when every character of `s` is whitespace;
      the dashboards call such a search term blank. */
  lemma TrimEmptyIffAllSpace(s: string)
    ensures Trim(s) == "" <==> IsBlank(s)
  {
    var t := DropRun(s, IsSpace);
    assert t != [] ==> t[0] == s[|s| - |t|];
    assert t != [] ==> TrimEnd(t) != [];
  }

  /** Trimming a string without whitespace changes nothing. */
  lemma TrimWithoutSpaces(s: string)
    requires NoSpaces(s)
    ensures Trim(s) == s
  {
  }

  /** A trimmed string has nothing left to trim. */
  lemma TrimIdempotent(s: string)
    ensures Trim(Trim(s)) == Trim(s)
  {
  }

  /** Trimming only removes characters, so it cannot introduce one. */
  lemma TrimKeepsOut(s: string, c: char)
    requires c !in s
    ensures c !in Trim(s)
  {
    var t := DropRun(s, IsSpace);
    assert t == s[|s| - |t|..];
    var r := TrimEnd(t);
    assert r == t[..|r|];
    forall i | 0 <= i < |r| ensures r[i] != c {
      assert r[i] == s[|s| - |t| + i];
    }
  }

  /** `s.includes(sub)`. */
  predicate Contains(s: string, sub: string) {
    exists i :: 0 <= i <= |s| - |sub| && OccursAt(s, sub, i)
  }

  predicate OccursAt(s: string, sub: string, i: int)
    requires 0 <= i <= |s| - |sub|
  {
    s[i..i + |sub|] == sub
  }

  lemma ContainsEmpty(s: string)
    ensures Contains(s, "")
  {
    assert OccursAt(s, "", 0);
  }

  /** `s.split(sep)` for a one-character separator: every piece between separators, empty ones included. */
  function Split(s: string, sep: char): (r: seq<string>)
    ensures |r| >= 1
    ensures forall k :: 0 <= k < |r| ==> sep !in r[k]
    decreases |s|
  {
    if s == [] then [""]
    else if s[0] == sep then [""] + Split(s[1..], sep)
    else
      var rest := Split(s[1..], sep);
      [[s[0]] + rest[0]] + rest[1..]
  }

  /** `parts.join(sep)`. */
  function Join(parts: seq<string>, sep: char): string
    decreases |parts|
  {
    if parts == [] then ""
    else if |parts| == 1 then parts[0]
    else parts[0] + [sep] + Join(parts[1..], sep)
  }

  /** Splitting and joining with the same separator gives the string back. */
  lemma {:induction false} JoinSplit(s: string, sep: char)
    ensures Join(Split(s, sep), sep) == s
    decreases |s|
  {
    if s != [] {
      var rest := Split(s[1..], sep);
      JoinSplit(s[1..], sep);
      if s[0] == sep {
        assert Split(s, sep) == [""] + rest;
        assert ([""] + rest)[1..] == rest;
      } else {
        var r := [[s[0]] + rest[0]] + rest[1..];
        assert Split(s, sep) == r;
        if |rest| == 1 {
          assert Join(r, sep) == [s[0]] + rest[0];
        } else {
          assert r[1..] == rest[1..];
          assert Join(rest, sep) == rest[0] + [sep] + Join(rest[1..], sep);
          assert Join(r, sep) == [s[0]] + rest[0] + [sep] + Join(rest[1..], sep);
        }
      }
    }
  }

  /** A separator-free prefix joins the first piece of what follows it. */
  lemma {:induction false} SplitPiece(w: string, rest: string, sep: char)
    requires sep !in w
    ensures Split(w + rest, sep) == [w + Split(rest, sep)[0]] + Split(rest, sep)[1..]
    decreases |w|
  {
    var r := Split(rest, sep);
    if w == [] {
      assert w + rest == rest && w + r[0] == r[0];
      assert [r[0]] + r[1..] == r;
    } else {
      SplitPiece(w[1..], rest, sep);
      assert (w + rest)[0] == w[0] && (w + rest)[1..] == w[1..] + rest;
      assert [w[0]] + (w[1..] + r[0]) == w + r[0];
    }
  }

  /** A leading separator splits off an empty first piece. */
  lemma SplitAfterSeparator(more: string, sep: char)
    ensures Split([sep] + more, sep) == [""] + Split(more, sep)
  {
    assert ([sep] + more)[1..] == more;
  }

  /** Joining separator-free pieces and splitting again gives the pieces back. */
  lemma {:induction false} SplitJoin(parts: seq<string>, sep: char)
    requires |parts| >= 1
    requires forall k :: 0 <= k < |parts| ==> sep !in parts[k]
    ensures Split(Join(parts, sep), sep) == parts
    decreases |parts|
  {
    if |parts| == 1 {
      SplitPiece(parts[0], [], sep);
      assert parts[0] + [] == parts[0];
    } else {
      var more := Join(parts[1..], sep);
      SplitJoin(parts[1..], sep);
      SplitAfterSeparator(more, sep);
      SplitPiece(parts[0], [sep] + more, sep);
      assert Join(parts, sep) == parts[0] + ([sep] + more);
      var x := [""] + parts[1..];
      assert x[0] == "" && x[1..] == parts[1..];
      assert parts[0] + "" == parts[0];
      assert parts == [parts[0]] + parts[1..];
    }
  }

  /** `s.split(/\s+/)`: the pieces between maximal whitespace runs. A leading or trailing run
      yields an empty first or last piece, and the empty string yields one empty piece. */
  function SplitOnSpaceRuns(s: string): (r: seq<string>)
    ensures |r| >= 1
    ensures forall k :: 0 <= k < |r| ==> NoSpaces(r[k])
    decreases |s|
  {
    if s == [] then [""]
    else if IsSpace(s[0]) then [""] + SplitOnSpaceRuns(DropRun(s, IsSpace))
    else
      var rest := SplitOnSpaceRuns(s[1..]);
      assert NoSpaces(rest[0]);
      [[s[0]] + rest[0]] + rest[1..]
  }

  /** The number of maximal whitespace runs of `s`, counted character by character: a
      whitespace character starts a run when the one before it (`prevSpace` for the first)
      is not whitespace. */
  function SpaceRunsFrom(s: string, prevSpace: bool): nat
    decreases |s|
  {
    if s == [] then 0
    else (if IsSpace(s[0]) && !prevSpace then 1 else 0) + SpaceRunsFrom(s[1..], IsSpace(s[0]))
  }

  function SpaceRuns(s: string): nat {
    SpaceRunsFrom(s, false)
  }

  /** After whitespace, the rest of a run starts no new run. */
  lemma {:induction false} SpaceRunsSkipRun(s: string)
    ensures SpaceRunsFrom(s, true) == SpaceRunsFrom(DropRun(s, IsSpace), false)
    decreases |s|
  {
    if s != [] && IsSpace(s[0]) {
      SpaceRunsSkipRun(s[1..]);
    }
  }

  /** `split(/\s+/)` gives one piece more than there are whitespace runs. */
  lemma {:induction false} SplitOnSpaceRunsCount(s: string)
    ensures |SplitOnSpaceRuns(s)| == 1 + SpaceRuns(s)
    decreases |s|
  {
    if s != [] {
      if IsSpace(s[0]) {
        SpaceRunsSkipRun(s[1..]);
        assert DropRun(s, IsSpace) == DropRun(s[1..], IsSpace);
        SplitOnSpaceRunsCount(DropRun(s, IsSpace));
      } else {
        SplitOnSpaceRunsCount(s[1..]);
      }
    }
  }

  /** A word: non-empty and free of whitespace. */
  predicate IsWord(w: string) {
    w != [] && NoSpaces(w)
  }

  /** A non-space first character joins the first piece of the rest. */
  lemma SplitOnSpaceRunsCons(c: char, s: string)
    requires !IsSpace(c)
    ensures SplitOnSpaceRuns([c] + s) == [[c] + SplitOnSpaceRuns(s)[0]] + SplitOnSpaceRuns(s)[1..]
  {
    assert ([c] + s)[0] == c && ([c] + s)[1..] == s;
  }

  lemma {:induction false} SplitOnSpaceRunsAfterWord(w: string, rest: string)
    requires NoSpaces(w)
    ensures SplitOnSpaceRuns(w + rest)
         == [w + SplitOnSpaceRuns(rest)[0]] + SplitOnSpaceRuns(rest)[1..]
    decreases |w|
  {
    var r := SplitOnSpaceRuns(rest);
    if w != [] {
      assert w + rest == [w[0]] + (w[1..] + rest);
      SplitOnSpaceRunsCons(w[0], w[1..] + rest);
      SplitOnSpaceRunsAfterWord(w[1..], rest);
      var tailSplit := [w[1..] + r[0]] + r[1..];
      assert tailSplit[0] == w[1..] + r[0] && tailSplit[1..] == r[1..];
      assert [w[0]] + (w[1..] + r[0]) == w + r[0];
    } else {
      assert w + rest == rest;
      assert w + r[0] == r[0];
      assert [r[0]] + r[1..] == r;
    }
  }

  /** One space before a word splits off an empty first piece. */
  lemma SplitOnSpaceRunsAfterSpace(tail: string)
    requires tail != [] && !IsSpace(tail[0])
    ensures SplitOnSpaceRuns([' '] + tail) == [""] + SplitOnSpaceRuns(tail)
  {
    var after := [' '] + tail;
    assert after[1..] == tail;
    assert DropRun(after, IsSpace) == tail;
  }

  /** Words joined by single spaces split back into exactly those words. */
  lemma {:induction false} SplitJoinedWords(ws: seq<string>)
    requires |ws| >= 1
    requires forall k :: 0 <= k < |ws| ==> IsWord(ws[k])
    ensures SplitOnSpaceRuns(Join(ws, ' ')) == ws
    decreases |ws|
  {
    if |ws| == 1 {
      SplitOnSpaceRunsAfterWord(ws[0], "");
      assert ws[0] + "" == ws[0];
    } else {
      var tail := Join(ws[1..], ' ');
      SplitJoinedWords(ws[1..]);
      JoinStartsWithFirst(ws[1..], ' ');
      assert IsWord(ws[1]);
      SplitOnSpaceRunsAfterSpace(tail);
      assert Join(ws, ' ') == ws[0] + ([' '] + tail);
      SplitOnSpaceRunsAfterWord(ws[0], [' '] + tail);
      var x := [""] + ws[1..];
      assert x[0] == "" && x[1..] == ws[1..];
      assert ws[0] + "" == ws[0];
      assert ws == [ws[0]] + ws[1..];
    }
  }

  /** Joining two or more parts puts the separator after the first. */
  lemma JoinStep(ws: seq<string>, sep: char)
    requires |ws| > 1
    ensures Join(ws, sep) == ws[0] + ([sep] + Join(ws[1..], sep))
  {
  }

  lemma {:induction false} JoinStartsWithFirst(ws: seq<string>, sep: char)
    requires |ws| >= 1 && ws[0] != []
    ensures Join(ws, sep) != [] && Join(ws, sep)[0] == ws[0][0]
  {
  }

  /** JavaScript's case-insensitive (`/i`) comparison of two characters in a non-Unicode
      regular expression: only the ASCII letters fold. */
  function AsciiFold(c: char): (r: char)
    ensures 'A' <= c <= 'Z' ==> 'a' <= r <= 'z' && r as int == c as int + 32
    ensures !('A' <= c <= 'Z') ==> r == c
  {
    if 'A' <= c <= 'Z' then (c as int + 32) as char else c
  }

  /** `/<suffix>$/i.test(s)`. */
  predicate EndsWithIgnoringCase(s: string, suffix: string) {
    |suffix| <= |s| &&
    forall k :: 0 <= k < |suffix| ==> AsciiFold(s[|s| - |suffix| + k]) == AsciiFold(suffix[k])
  }

  /** The runtime's Unicode data, per code point: `toLowerCase` and the canonical
      decomposition of `normalize("NFD")`. The model leaves them open; `FixesSlugAlphabet`
      states the one assumption the slug lemmas need. */
  datatype Tables = Tables(lower: char -> seq<char>, decompose: char -> seq<char>)

  function FlatMap(f: char -> seq<char>, s: string): (r: string)
    ensures s == [] ==> r == []
    decreases |s|
  {
    if s == [] then [] else f(s[0]) + FlatMap(f, s[1..])
  }

  /** A per-character map of a concatenation is the concatenation of the maps. */
  lemma {:induction false} FlatMapAppend(f: char -> seq<char>, a: string, b: string)
    ensures FlatMap(f, a + b) == FlatMap(f, a) + FlatMap(f, b)
    decreases |a|
  {
    if a == [] {
      assert a + b == b;
    } else {
      assert (a + b)[1..] == a[1..] + b;
      FlatMapAppend(f, a[1..], b);
    }
  }

  /** A map that leaves every character of `s` alone leaves `s` alone. */
  lemma {:induction false} FlatMapIdentity(f: char -> seq<char>, s: string)
    requires forall i :: 0 <= i < |s| ==> f(s[i]) == [s[i]]
    ensures FlatMap(f, s) == s
    decreases |s|
  {
    if s != [] {
      FlatMapIdentity(f, s[1..]);
      assert [s[0]] + s[1..] == s;
    }
  }

  /** `s.toLowerCase()`. */
  function ToLower(t: Tables, s: string): string {
    FlatMap(t.lower, s)
  }

  /** `s.normalize("NFD")`. */
  function Decompose(t: Tables, s: string): string {
    FlatMap(t.decompose, s)
  }

  lemma LowerEmpty(t: Tables)
    ensures ToLower(t, "") == ""
  {
  }

  /** A decimal or hexadecimal digit's value, or -1. */
  function DigitValue(c: char): (v: int)
    ensures -1 <= v < 16
  {
    if '0' <= c <= '9' then c as int - '0' as int
    else if 'a' <= c <= 'f' then c as int - 'a' as int + 10
    else if 'A' <= c <= 'F' then c as int - 'A' as int + 10
    else -1
  }

  predicate IsDigitIn(c: char, radix: int) {
    0 <= DigitValue(c) < radix
  }

  /** The longest prefix of `s` made of digits of the given radix. */
  function LeadingDigits(s: string, radix: int): (r: string)
    ensures |r| <= |s| && r == s[..|r|]
    ensures forall k :: 0 <= k < |r| ==> IsDigitIn(r[k], radix)
    ensures |r| < |s| ==> !IsDigitIn(s[|r|], radix)
    decreases |s|
  {
    if s != [] && IsDigitIn(s[0], radix) then [s[0]] + LeadingDigits(s[1..], radix) else []
  }

  function Times(a: nat, b: nat): nat {
    a * b
  }

  /** The number a digit string denotes in the given radix. */
  function DigitsValue(ds: string, radix: nat): nat
    requires forall k :: 0 <= k < |ds| ==> IsDigitIn(ds[k], radix)
    decreases |ds|
  {
    if ds == [] then 0
    else
      var high := ds[..|ds| - 1];
      assert forall k :: 0 <= k < |high| ==> high[k] == ds[k];
      assert IsDigitIn(ds[|ds| - 1], radix);
      var d: nat := DigitValue(ds[|ds| - 1]);
      Times(DigitsValue(high, radix), radix) + d
  }

  /** The digits after the sign: a `0x` or `0X` prefix selects base 16, and the longest
      digit prefix is read; `None` when there is no digit. */
  function ParseUnsigned(u: string): Option<nat> {
    var hex := |u| >= 2 && u[0] == '0' && (u[1] == 'x' || u[1] == 'X');
    var radix := if hex then 16 else 10;
    var ds := LeadingDigits(if hex then u[2..] else u, radix);
    if ds == [] then None else Some(DigitsValue(ds, radix))
  }

  /** `Number.parseInt(s)` with no radix: leading whitespace and one sign are skipped and
      the rest is read by `ParseUnsigned`; `None` is `NaN`. */
  function ParseInt(s: string): Option<int> {
    var t := DropRun(s, IsSpace);
    var negative := t != [] && t[0] == '-';
    var u := if t != [] && (t[0] == '-' || t[0] == '+') then t[1..] else t;
    match ParseUnsigned(u)
    case None => None
    case Some(v) => Some(if negative then -(v as int) else v as int)
  }

  /** The decimal numeral of `n`. */
  function DecimalString(n: nat): (r: string)
    ensures r != [] && forall k :: 0 <= k < |r| ==> '0' <= r[k] <= '9'
    decreases n
  {
    (if n < 10 then [] else DecimalString(n / 10)) + [('0' as int + n % 10) as char]
  }

  lemma {:induction false} DecimalStringValue(n: nat)
    ensures forall k :: 0 <= k < |DecimalString(n)| ==> IsDigitIn(DecimalString(n)[k], 10)
    ensures DigitsValue(DecimalString(n), 10) == n
    decreases n
  {
    var r := DecimalString(n);
    assert forall k :: 0 <= k < |r| ==> IsDigitIn(r[k], 10);
    var last := ('0' as int + n % 10) as char;
    assert DigitValue(last) == n % 10;
    if n >= 10 {
      var high := DecimalString(n / 10);
      DecimalStringValue(n / 10);
      assert r == high + [last] && r[..|r| - 1] == high;
      assert DigitsValue(r, 10) == DigitsValue(high, 10) * 10 + n % 10;
    } else {
      assert r == [last] && r[..|r| - 1] == [];
    }
  }

  /** A string made only of digits of the radix is its own longest digit prefix. */
  lemma AllDigitsLead(ds: string, radix: int)
    requires forall k :: 0 <= k < |ds| ==> IsDigitIn(ds[k], radix)
    ensures LeadingDigits(ds, radix) == ds
  {
    var lead := LeadingDigits(ds, radix);
    if |lead| < |ds| {
      assert false;
    }
  }

  /** Decimal digits without a `0x` prefix are read whole, in base 10. */
  lemma ParseUnsignedDecimal(ds: string)
    requires ds != [] && forall k :: 0 <= k < |ds| ==> '0' <= ds[k] <= '9'
    ensures forall k :: 0 <= k < |ds| ==> IsDigitIn(ds[k], 10)
    ensures ParseUnsigned(ds) == Some(DigitsValue(ds, 10))
  {
    assert forall k :: 0 <= k < |ds| ==> IsDigitIn(ds[k], 10);
    assert !(|ds| >= 2 && ds[0] == '0' && (ds[1] == 'x' || ds[1] == 'X'));
    AllDigitsLead(ds, 10);
  }

  /** Without leading whitespace or a sign, `parseInt` reads the string as `ParseUnsigned` does. */
  lemma ParseWithoutPrefix(s: string)
    requires s != [] && !IsSpace(s[0]) && s[0] != '-' && s[0] != '+'
    ensures ParseInt(s) == if ParseUnsigned(s).Some? then Some(ParseUnsigned(s).value as int) else None
  {
    assert DropRun(s, IsSpace) == s;
  }

  /** On a string of decimal digits, `parseInt` reads the whole string. */
  lemma ParseDecimalDigits(ds: string)
    requires ds != [] && forall k :: 0 <= k < |ds| ==> '0' <= ds[k] <= '9'
    ensures forall k :: 0 <= k < |ds| ==> IsDigitIn(ds[k], 10)
    ensures ParseInt(ds) == Some(DigitsValue(ds, 10))
  {
    ParseUnsignedDecimal(ds);
    assert !IsSpace(ds[0]) && ds[0] != '-' && ds[0] != '+';
    ParseWithoutPrefix(ds);
  }

  /** `parseInt` reads back a decimal numeral, so `parseInt(String(n)) == n` for every `n >= 0`. */
  lemma ParseDecimalString(n: nat)
    ensures ParseInt(DecimalString(n)) == Some(n)
  {
    DecimalStringValue(n);
    ParseDecimalDigits(DecimalString(n));
  }
}
