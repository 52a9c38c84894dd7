/** The JavaScript string and number semantics that the document generators rely on:
    whitespace trimming, substring search and first-occurrence replacement,
    `split`/`join`, `parseInt` and `Number` conversions, the truncating `%`, truthiness
    under `||`, and template-literal stringification of the primitive values the forms store.
 */
module Js {

  datatype Option<+T> = None | Some(value: T)

  /** A primitive stored in a form record.  Numbers that reach a form record are integers
      (results of `parseInt`, integer slider positions) or NaN. */
  datatype Value = Str(s: string) | Bool(b: bool) | Int(i: int) | NaN | Undefined

  /** A form record: `{...prev, [name]: value}` merges one key. */
  type Fields = map<string, Value>

  /** The result of a `Number(...)` conversion or of arithmetic on it, as an exact real. */
  datatype Number = Real(r: real) | NotANumber

  /** Reading a property: an absent key reads as `undefined`. */
  function Get(f: Fields, key: string): (v: Value)
    ensures key !in f ==> v == Undefined
    ensures key in f ==> v == f[key]
  {
    if key in f then f[key] else Undefined
  }

  /** `!!v`: the empty string, false, 0, NaN and undefined are falsy. */
  predicate Truthy(v: Value)
  {
    match v
    case Str(s) => s != ""
    case Bool(b) => b
    case Int(i) => i != 0
    case NaN => false
    case Undefined => false
  }

  /** `a || d` on strings. */
  function OrElse(a: string, d: string): (r: string)
    ensures a != "" ==> r == a
    ensures a == "" ==> r == d
  {
    if a != "" then a else d
  }

  /** `${v || d}` in a template literal. */
  function ValueOr(v: Value, d: string): (r: string)
    ensures !Truthy(v) ==> r == d
    ensures v.Str? && v.s != "" ==> r == v.s
  {
    if Truthy(v) then ValueToString(v) else d
  }

  // ---------------------------------------------------------------------------
  // Whitespace, as JavaScript's `trim` and the regular expression class `\s` see it
  // (WhiteSpace and LineTerminator of ECMA-262).

  predicate IsSpace(c: char)
  {
    c == '\t' || c == '\n' || c == '\U{B}' || c == '\U{C}' || c == '\r' || c == ' '
    || c == '\U{A0}' || c == '\U{1680}' || c == '\U{2000}' || c == '\U{2001}' || c == '\U{2002}'
    || c == '\U{2003}' || c == '\U{2004}' || c == '\U{2005}' || c == '\U{2006}' || c == '\U{2007}'
    || c == '\U{2008}' || c == '\U{2009}' || c == '\U{200A}'
    || c == '\U{2028}' || c == '\U{2029}' || c == '\U{202F}' || c == '\U{205F}'
    || c == '\U{3000}' || c == '\U{FEFF}'
  }

  predicate NoEdgeSpace(s: string)
  {
    s == [] || (!IsSpace(s[0]) && !IsSpace(s[|s| - 1]))
  }

  function TrimStart(s: string): (r: string)
    ensures |r| <= |s| && r == s[|s| - |r|..]
    ensures r != [] ==> !IsSpace(r[0])
  {
    if |s| > 0 && IsSpace(s[0]) then TrimStart(s[1..]) else s
  }

  function TrimEnd(s: string): (r: string)
    ensures |r| <= |s| && r == s[..|r|]
    ensures r != [] ==> !IsSpace(r[|r| - 1])
  {
    if |s| > 0 && IsSpace(s[|s| - 1]) then TrimEnd(s[..|s| - 1]) else s
  }

  /** What `TrimStart` removes is whitespace. */
  lemma {:induction false} TrimStartSkipsSpace(s: string)
    ensures forall k :: 0 <= k < |s| - |TrimStart(s)| ==> IsSpace(s[k])
  {
    if |s| > 0 && IsSpace(s[0]) {
      TrimStartSkipsSpace(s[1..]);
      forall k | 1 <= k < |s| - |TrimStart(s)| ensures IsSpace(s[k]) {
        assert s[k] == s[1..][k - 1];
      }
    }
  }

  /** What `TrimEnd` removes is whitespace. */
  lemma {:induction false} TrimEndSkipsSpace(s: string)
    ensures forall k :: |TrimEnd(s)| <= k < |s| ==> IsSpace(s[k])
  {
    if |s| > 0 && IsSpace(s[|s| - 1]) {
      TrimEndSkipsSpace(s[..|s| - 1]);
      forall k | |TrimEnd(s)| <= k < |s| - 1 ensures IsSpace(s[k]) {
        assert s[k] == s[..|s| - 1][k];
      }
    }
  }

  /** Only whitespace lies before position `i` and from position `j` on. */
  predicate SpaceOutside(s: string, i: int, j: int)
    requires 0 <= i <= j <= |s|
  {
    (forall k :: 0 <= k < i ==> IsSpace(s[k])) && forall k :: j <= k < |s| ==> IsSpace(s[k])
  }

  /** `r` is the infix of `s` at `i`, without whitespace at its ends and with only whitespace
      around it. */
  predicate TrimmedAt(s: string, i: nat, r: string)
  {
    i + |r| <= |s| && s[i..i + |r|] == r && NoEdgeSpace(r) && SpaceOutside(s, i, i + |r|)
  }

  /** Where the trimmed text starts: the length of the leading whitespace. */
  function TrimOffset(s: string): (i: nat)
    ensures i <= |s|
  {
    |s| - |TrimStart(s)|
  }

  /** `s.trim()`: the infix of `s` left after removing whitespace at both ends. */
  function Trim(s: string): (r: string)
    ensures TrimmedAt(s, TrimOffset(s), r)
  {
    TrimStartThenEnd(s);
    TrimEnd(TrimStart(s))
  }

  /** Trimming the start and then the end leaves an infix with only whitespace around it. */
  lemma TrimStartThenEnd(s: string)
    ensures TrimmedAt(s, TrimOffset(s), TrimEnd(TrimStart(s)))
  {
    var t := TrimStart(s);
    TrimStartSkipsSpace(s);
    TrimEndSkipsSpace(t);
    SpaceAroundInfix(s, TrimOffset(s), t, TrimEnd(t));
  }

  /** A prefix `r` of the suffix `t` of `s` at `i`, with whitespace before `t` and after `r`. */
  lemma SpaceAroundInfix(s: string, i: nat, t: string, r: string)
    requires i <= |s| && t == s[i..] && |r| <= |t| && r == t[..|r|]
    requires forall k :: 0 <= k < i ==> IsSpace(s[k])
    requires forall k :: |r| <= k < |t| ==> IsSpace(t[k])
    requires t != [] ==> !IsSpace(t[0])
    requires r != [] ==> !IsSpace(r[|r| - 1])
    ensures TrimmedAt(s, i, r)
  {
    if r != [] {
      assert r[0] == t[0];
    }
    assert s[i..i + |r|] == r;
    forall k | i + |r| <= k < |s| ensures IsSpace(s[k]) {
      assert s[k] == t[k - i];
    }
  }

  /** Trim's own description of its result, with the position made explicit. */
  lemma TrimSpaceOutside(s: string) returns (i: nat)
    ensures TrimmedAt(s, i, Trim(s))
    ensures i + |Trim(s)| <= |s| && s[i..i + |Trim(s)|] == Trim(s) && SpaceOutside(s, i, i + |Trim(s)|)
  {
    i := TrimOffset(s);
  }

  /** Trimming finds the one infix without edge whitespace that only whitespace surrounds. */
  lemma TrimUnique(s: string, i: nat, r: string)
    requires i + |r| <= |s| && s[i..i + |r|] == r && NoEdgeSpace(r) && SpaceOutside(s, i, i + |r|)
    ensures Trim(s) == r
  {
    var t := Trim(s);
    var j := TrimSpaceOutside(s);
    if r != [] {
      assert r[0] == s[i] && r[|r| - 1] == s[i + |r| - 1];
      assert t != [];
      assert t[0] == s[j] && t[|t| - 1] == s[j + |t| - 1];
      assert i == j;
      assert |t| == |r|;
    }
  }

  /** A trailing blank does not change the trimmed text. */
  lemma TrimTrailingBlank(a: string)
    ensures Trim(a + " ") == Trim(a)
  {
    var i := TrimSpaceOutside(a);
    TrimmedAtBeforeSpace(a, i, Trim(a), ' ');
    assert a + " " == a + [' '];
    TrimUnique(a + [' '], i, Trim(a));
  }

  /** Whitespace appended after a trimmed infix keeps it the trimmed infix. */
  lemma TrimmedAtBeforeSpace(a: string, i: nat, t: string, c: char)
    requires TrimmedAt(a, i, t) && IsSpace(c)
    ensures TrimmedAt(a + [c], i, t)
  {
    var s := a + [c];
    assert s[i..i + |t|] == a[i..i + |t|];
    forall k | 0 <= k < |s| && (k < i || i + |t| <= k) ensures IsSpace(s[k]) {
      if k < |a| {
        assert s[k] == a[k];
      }
    }
  }

  /** Appending a tail that ends in a non-blank to a text with words: the trim starts at the
      text's first word and runs to the end; the part taken from the text trims as the text. */
  lemma TrimBeforeTail(t: string, x: string) returns (a: string)
    requires Trim(t) != [] && x != [] && !IsSpace(x[|x| - 1])
    ensures |a| <= |t| && a == t[|t| - |a|..]
    ensures Trim(t + x) == a + x && Trim(a) == Trim(t)
  {
    var w := Trim(t);
    var i := TrimSpaceOutside(t);
    a := t[i..];
    assert |t| - |a| == i;
    TrimOfSuffix(t, i, w, a);
    TrimTailAppended(t, i, w, x);
  }

  lemma TrimOfSuffix(t: string, i: nat, w: string, a: string)
    requires w != [] && i + |w| <= |t| && t[i..i + |w|] == w && NoEdgeSpace(w)
    requires SpaceOutside(t, i, i + |w|) && a == t[i..]
    ensures Trim(a) == w
  {
    assert a[0..|w|] == w;
    forall k | |w| <= k < |a| ensures IsSpace(a[k]) {
      assert a[k] == t[i + k];
    }
    TrimUnique(a, 0, w);
  }

  lemma TrimTailAppended(t: string, i: nat, w: string, x: string)
    requires w != [] && i + |w| <= |t| && t[i..i + |w|] == w && NoEdgeSpace(w)
    requires SpaceOutside(t, i, i + |w|) && x != [] && !IsSpace(x[|x| - 1])
    ensures Trim(t + x) == t[i..] + x
  {
    var s := t + x;
    var r := t[i..] + x;
    assert s[i..i + |r|] == r;
    assert r[0] == w[0];
    forall k | 0 <= k < i ensures IsSpace(s[k]) {
      assert s[k] == t[k];
    }
    TrimUnique(s, i, r);
  }

  // ---------------------------------------------------------------------------
  // Substring search and replacement.

  /** Cutting an earlier occurrence of `p` out of `s` moves a later occurrence `|p|` to the left. */
  lemma OccurrenceAfterCut(s: string, p: string, i: nat, j: int)
    requires i + |p| <= j && OccursAt(s, p, j)
    ensures OccursAt(s[..i] + s[i + |p|..], p, j - |p|)
  {
    var tail := s[i + |p|..];
    var c := s[..i] + tail;
    OccurrenceInInfix(s, tail, i + |p|, p, j - i - |p|);
    assert c[i..i + |tail|] == tail;
    OccurrenceInInfix(c, tail, i, p, j - i - |p|);
  }

  predicate OccursAt(s: string, p: string, j: int)
  {
    0 <= j && j + |p| <= |s| && s[j..j + |p|] == p
  }

  /** An occurrence inside an infix of `s` is an occurrence in `s`, shifted by the infix's start. */
  lemma OccurrenceInInfix(s: string, t: string, i: nat, p: string, j: int)
    requires i + |t| <= |s| && s[i..i + |t|] == t
    ensures OccursAt(t, p, j) ==> OccursAt(s, p, i + j)
    ensures 0 <= j && j + |p| <= |t| && OccursAt(s, p, i + j) ==> OccursAt(t, p, j)
  {
    if 0 <= j && j + |p| <= |t| {
      var u, v := t[j..j + |p|], s[i + j..i + j + |p|];
      forall m | 0 <= m < |u| ensures u[m] == v[m] {
        assert u[m] == s[i..i + |t|][j + m];
      }
      assert u == v;
    }
  }

  predicate FirstOccurrence(s: string, p: string, i: int)
  {
    OccursAt(s, p, i) && forall j :: 0 <= j < i ==> !OccursAt(s, p, j)
  }

  function IndexFrom(s: string, p: string, k: nat): (r: Option<nat>)
    requires k <= |s|
    ensures r.Some? ==> k <= r.value && OccursAt(s, p, r.value)
                        && forall j :: k <= j < r.value ==> !OccursAt(s, p, j)
    ensures r.None? ==> forall j :: k <= j ==> !OccursAt(s, p, j)
    decreases |s| - k
  {
    if k + |p| > |s| then None
    else if s[k..k + |p|] == p then Some(k)
    else if k == |s| then None
    else IndexFrom(s, p, k + 1)
  }

  /** `s.indexOf(p)`, with None for -1. */
  function IndexOf(s: string, p: string): (r: Option<nat>)
    ensures r.Some? ==> FirstOccurrence(s, p, r.value)
    ensures r.None? <==> forall j :: !OccursAt(s, p, j)
  {
    IndexFrom(s, p, 0)
  }

  /** `s.includes(p)`. */
  predicate Includes(s: string, p: string)
    ensures Includes(s, p) <==> exists j :: OccursAt(s, p, j)
  {
    IndexOf(s, p).Some?
  }

  /** `s.replace(p, rep)` with a string pattern: only the first occurrence is replaced
      (the replacement strings used by the generators hold no `$` patterns). */
  function ReplaceFirst(s: string, p: string, rep: string): (r: string)
    ensures (forall j :: !OccursAt(s, p, j)) ==> r == s
    ensures forall i :: FirstOccurrence(s, p, i) ==> r == s[..i] + rep + s[i + |p|..]
  {
    match IndexOf(s, p)
    case None => s
    case Some(i) =>
      assert forall i' :: FirstOccurrence(s, p, i') ==> i' == i by {
        forall i' | FirstOccurrence(s, p, i') ensures i' == i {
        }
      }
      s[..i] + rep + s[i + |p|..]
  }

  /** Replacing the first occurrence of one character by another keeps the length and
      changes only that position. */
  lemma ReplaceFirstChar(s: string, a: char, b: char)
    ensures |ReplaceFirst(s, [a], [b])| == |s|
    ensures (forall k :: 0 <= k < |s| ==> s[k] != a) ==> ReplaceFirst(s, [a], [b]) == s
    ensures forall i :: FirstOccurrence(s, [a], i) ==>
              ReplaceFirst(s, [a], [b])[i] == b
              && forall k :: 0 <= k < |s| && k != i ==> ReplaceFirst(s, [a], [b])[k] == s[k]
  {
    forall i | FirstOccurrence(s, [a], i)
      ensures |ReplaceFirst(s, [a], [b])| == |s| && ReplaceFirst(s, [a], [b])[i] == b
      ensures forall k :: 0 <= k < |s| && k != i ==> ReplaceFirst(s, [a], [b])[k] == s[k]
    {
      ReplaceFirstCharAt(s, a, b, i);
    }
    if IndexOf(s, [a]).Some? {
      assert FirstOccurrence(s, [a], IndexOf(s, [a]).value);
    }
    if forall k :: 0 <= k < |s| ==> s[k] != a {
      CharAbsent(s, a);
    }
  }

  lemma ReplaceFirstCharAt(s: string, a: char, b: char, i: int)
    requires FirstOccurrence(s, [a], i)
    ensures |ReplaceFirst(s, [a], [b])| == |s| && ReplaceFirst(s, [a], [b])[i] == b
    ensures forall k :: 0 <= k < |s| && k != i ==> ReplaceFirst(s, [a], [b])[k] == s[k]
  {
    var r := ReplaceFirst(s, [a], [b]);
    assert r == s[..i] + [b] + s[i + 1..];
    SpliceOne(s, i, b);
  }

  /** Putting `b` in place of position `i` changes that position and no other. */
  lemma SpliceOne(s: string, i: int, b: char)
    requires 0 <= i < |s|
    ensures forall k :: 0 <= k < |s| && k != i ==> (s[..i] + [b] + s[i + 1..])[k] == s[k]
  {
    forall k | 0 <= k < |s| && k != i ensures (s[..i] + [b] + s[i + 1..])[k] == s[k] {
      if k > i {
        assert (s[..i] + [b] + s[i + 1..])[k] == s[i + 1..][k - i - 1];
      }
    }
  }

  lemma CharAbsent(s: string, a: char)
    requires forall k :: 0 <= k < |s| ==> s[k] != a
    ensures forall j :: !OccursAt(s, [a], j)
  {
    forall j ensures !OccursAt(s, [a], j) {
      if 0 <= j < |s| { assert s[j] != a; }
    }
  }

  /** `s.replace(/\s+/g, rep)`: every maximal run of whitespace becomes `rep`. */
  function ReplaceWhitespaceRuns(s: string, rep: string): (r: string)
    ensures (forall k :: 0 <= k < |s| ==> !IsSpace(s[k])) ==> r == s
    ensures (forall k :: 0 <= k < |rep| ==> !IsSpace(rep[k])) ==>
              forall k :: 0 <= k < |r| ==> !IsSpace(r[k])
    decreases |s|
  {
    if |s| == 0 then ""
    else if IsSpace(s[0]) then rep + ReplaceWhitespaceRuns(TrimStart(s), rep)
    else [s[0]] + ReplaceWhitespaceRuns(s[1..], rep)
  }

  /** `s.slice(i, j)` for non-negative bounds: both ends are clamped to the length. */
  function Slice(s: string, i: nat, j: nat): (r: string)
    ensures i <= j <= |s| ==> r == s[i..j]
    ensures j <= i || |s| <= i ==> r == ""
    ensures |r| <= |s|
  {
    var from := if i < |s| then i else |s|;
    var to := if j < |s| then j else |s|;
    if from < to then s[from..to] else ""
  }

  // ---------------------------------------------------------------------------
  // split and join with a one-character separator.

  /** `s.split(sep)` for a one-character separator. */
  function Split(s: string, sep: char): (parts: seq<string>)
    ensures |parts| >= 1
    ensures forall k, m :: 0 <= k < |parts| && 0 <= m < |parts[k]| ==> parts[k][m] != sep
    decreases |s|
  {
    match IndexOf(s, [sep])
    case None =>
      assert forall m :: 0 <= m < |s| ==> s[m] != sep by {
        forall m | 0 <= m < |s| ensures s[m] != sep { assert !OccursAt(s, [sep], m); }
      }
      [s]
    case Some(i) =>
      assert forall m :: 0 <= m < i ==> s[m] != sep by {
        forall m | 0 <= m < i ensures s[m] != sep { assert !OccursAt(s, [sep], m); }
      }
      [s[..i]] + Split(s[i + 1..], sep)
  }

  /** `parts.join(sep)`. */
  function Join(parts: seq<string>, sep: string): string
  {
    if |parts| == 0 then ""
    else if |parts| == 1 then parts[0]
    else parts[0] + sep + Join(parts[1..], sep)
  }

  /** Splitting and joining again with the same separator gives back the string. */
  lemma {:induction false} JoinSplit(s: string, sep: char)
    ensures Join(Split(s, sep), [sep]) == s
    decreases |s|
  {
    match IndexOf(s, [sep])
    case None =>
    case Some(i) =>
      var rest := s[i + 1..];
      JoinSplit(rest, sep);
      SplitAt(s, sep, i);
      JoinCons(s[..i], Split(rest, sep), [sep]);
  }

  /** Where the first separator stands, `split` cuts off the part before it. */
  lemma SplitAt(s: string, sep: char, i: nat)
    requires IndexOf(s, [sep]) == Some(i)
    ensures i < |s| && s == s[..i] + [sep] + s[i + 1..]
    ensures Split(s, sep) == [s[..i]] + Split(s[i + 1..], sep)
  {
    assert s[i..i + 1] == [sep];
  }

  lemma JoinCons(p: string, ps: seq<string>, sep: string)
    requires |ps| >= 1
    ensures Join([p] + ps, sep) == p + sep + Join(ps, sep)
  {
    assert ([p] + ps)[1..] == ps;
  }

  // ---------------------------------------------------------------------------
  // Digits, parseInt and integer stringification.

  function DigitValue(c: char): (d: Option<nat>)
    ensures d.Some? ==> d.value < 36
  {
    if '0' <= c <= '9' then Some((c as int) - ('0' as int))
    else if 'a' <= c <= 'z' then Some((c as int) - ('a' as int) + 10)
    else if 'A' <= c <= 'Z' then Some((c as int) - ('A' as int) + 10)
    else None
  }

  predicate IsDigit(c: char, base: nat)
  {
    DigitValue(c).Some? && DigitValue(c).value < base
  }

  predicate AllDigits(s: string, base: nat)
  {
    forall k :: 0 <= k < |s| ==> IsDigit(s[k], base)
  }

  /** Length of the longest prefix of `s` made of digits of `base`. */
  function DigitPrefixLen(s: string, base: nat): (n: nat)
    ensures n <= |s| && AllDigits(s[..n], base)
    ensures n < |s| ==> !IsDigit(s[n], base)
  {
    if |s| > 0 && IsDigit(s[0], base) then
      var n := 1 + DigitPrefixLen(s[1..], base);
      assert s[..n] == [s[0]] + s[1..][..n - 1];
      n
    else 0
  }

  /** The value of a string of digits in `base`, most significant first. */
  function DigitsValue(d: string, base: nat): (v: nat)
    requires AllDigits(d, base)
  {
    if |d| == 0 then 0
    else DigitsValue(d[..|d| - 1], base) * base + DigitValue(d[|d| - 1]).value
  }

  predicate HasHexPrefix(u: string)
  {
    |u| >= 2 && u[0] == '0' && (u[1] == 'x' || u[1] == 'X')
  }

  /** Reads an unsigned integer: a `0x` prefix is stripped when the radix is omitted (0) or 16,
      then the longest prefix of digits is read; no digit at all is NaN (None). */
  function ReadDigits(u: string, radix: int): (r: Option<nat>)
    requires radix == 0 || 2 <= radix <= 36
  {
    var hex := (radix == 0 || radix == 16) && HasHexPrefix(u);
    var base := if hex then 16 else if radix == 0 then 10 else radix;
    var body := if hex then u[2..] else u;
    var n := DigitPrefixLen(body, base);
    if n == 0 then None
    else Some(DigitsValue(body[..n], base))
  }

  /** `Number.parseInt(s, radix)`, with radix 0 standing for an omitted radix and None for NaN:
      leading whitespace is skipped, one sign is accepted, then the digits are read. */
  function ParseInt(s: string, radix: int): (r: Option<int>)
    ensures radix != 0 && (radix < 2 || 36 < radix) ==> r.None?
  {
    if radix != 0 && (radix < 2 || 36 < radix) then None
    else ParseSigned(TrimStart(s), radix)
  }

  /** The part of `parseInt` after leading whitespace: an optional sign, then digits. */
  function ParseSigned(t: string, radix: int): (r: Option<int>)
    requires radix == 0 || 2 <= radix <= 36
  {
    if |t| > 0 && t[0] == '-' then
      match ReadDigits(t[1..], radix)
      case None => None
      case Some(v) => Some(-(v as int))
    else if |t| > 0 && t[0] == '+' then
      match ReadDigits(t[1..], radix)
      case None => None
      case Some(v) => Some(v)
    else
      match ReadDigits(t, radix)
      case None => None
      case Some(v) => Some(v)
  }

  /** `parseInt(...) || d`: NaN and 0 fall back to `d`. */
  function IntOr(p: Option<int>, d: int): (r: int)
    ensures p.Some? && p.value != 0 ==> r == p.value
    ensures p.None? || p.value == 0 ==> r == d
  {
    if p.Some? && p.value != 0 then p.value else d
  }

  function DigitChar(d: nat): (c: char)
    requires d < 10
    ensures DigitValue(c) == Some(d)
  {
    (('0' as int) + d) as char
  }

  function NatToString(n: nat): (s: string)
    ensures |s| >= 1 && AllDigits(s, 10)
    ensures s[0] != '-' && !IsSpace(s[0])
    ensures |s| > 1 ==> s[0] != '0'
  {
    if n < 10 then [DigitChar(n)]
    else NatToString(n / 10) + [DigitChar(n % 10)]
  }

  /** `String(n)` / `${n}` for an integer. */
  function IntToString(n: int): (s: string)
    ensures |s| >= 1 && NoEdgeSpace(s)
  {
    var d := NatToString(if n >= 0 then n else -n);
    DigitNotSpace(d[|d| - 1]);
    if n >= 0 then d else "-" + d
  }

  lemma DigitNotSpace(c: char)
    requires IsDigit(c, 10)
    ensures !IsSpace(c)
  {
  }

  /** Trimming a string without whitespace at either end changes nothing. */
  lemma TrimOfNoEdgeSpace(s: string)
    requires NoEdgeSpace(s)
    ensures Trim(s) == s
  {
    assert TrimStart(s) == s;
    assert TrimEnd(s) == s;
  }

  lemma {:induction false} NatToStringValue(n: nat)
    ensures DigitsValue(NatToString(n), 10) == n
  {
    if n >= 10 {
      NatToStringValue(n / 10);
      var s := NatToString(n);
      assert s[..|s| - 1] == NatToString(n / 10);
    }
  }

  lemma {:induction false} DigitPrefixOfDigits(u: string, base: nat)
    requires AllDigits(u, base)
    ensures DigitPrefixLen(u, base) == |u|
  {
    if |u| > 0 {
      DigitPrefixOfDigits(u[1..], base);
    }
  }

  /** A nonempty string made only of digits of the radix (10 when omitted), not starting `0x`,
      reads as its value. */
  lemma ReadAllDigits(u: string, radix: int)
    requires radix == 0 || 2 <= radix <= 36
    requires u != [] && AllDigits(u, if radix == 0 then 10 else radix) && !HasHexPrefix(u)
    ensures ReadDigits(u, radix) == Some(DigitsValue(u, if radix == 0 then 10 else radix))
  {
    DigitPrefixOfDigits(u, if radix == 0 then 10 else radix);
    assert u[..|u|] == u;
  }

  lemma NatToStringNotHex(n: nat)
    ensures !HasHexPrefix(NatToString(n)) && PrefixBase(NatToString(n)) == 0
  {
    var s := NatToString(n);
    if |s| >= 2 { assert IsDigit(s[1], 10); }
  }

  lemma ParseIntUnsigned(u: string, radix: int)
    requires radix == 0 || 2 <= radix <= 36
    requires u != [] && !IsSpace(u[0]) && u[0] != '-' && u[0] != '+'
    ensures ParseInt(u, radix) == ReadDigits(u, radix)
  {
    assert TrimStart(u) == u;
  }

  lemma ParseIntNegative(u: string, radix: int)
    requires radix == 0 || 2 <= radix <= 36
    ensures ReadDigits(u, radix).Some? ==> ParseInt("-" + u, radix) == Some(-(ReadDigits(u, radix).value as int))
  {
    var s := "-" + u;
    assert TrimStart(s) == s;
    assert s[1..] == u;
    assert ParseInt(s, radix) == ParseSigned(s, radix);
  }

  /** Integer stringification and parseInt (radix 10 or omitted) are inverse. */
  lemma IntToStringRoundTrip(n: int, radix: int)
    requires radix == 0 || radix == 10
    ensures ParseInt(IntToString(n), radix) == Some(n)
  {
    IntToStringPrefixRoundTrip(n, [], radix);
    assert IntToString(n) + [] == IntToString(n);
  }

  /** The decimal string of an integer: the digits of its magnitude, after '-' when negative. */
  lemma IntToStringShape(n: int)
    ensures n >= 0 ==> IntToString(n) == NatToString(n)
    ensures n < 0 ==> IntToString(n) == "-" + NatToString(-n)
  {
  }

  /** A minus sign before digits that read as `v` reads as `-v`. */
  lemma NegativeOfDigits(d: string, v: nat, radix: int)
    requires radix == 0 || radix == 10
    requires ReadDigits(d, radix) == Some(v)
    ensures ParseInt("-" + d, radix) == Some(-(v as int))
  {
    ParseIntNegative(d, radix);
  }

  /** The digit prefix of digits followed by a non-digit is those digits. */
  lemma {:induction false} DigitPrefixBeforeStop(u: string, w: string, base: nat)
    requires AllDigits(u, base) && (w == [] || !IsDigit(w[0], base))
    ensures DigitPrefixLen(u + w, base) == |u|
  {
    if |u| > 0 {
      assert (u + w)[1..] == u[1..] + w;
      DigitPrefixBeforeStop(u[1..], w, base);
    } else {
      assert u + w == w;
    }
  }

  /** Decimal digits followed by anything that is not a letter or digit read as those digits. */
  lemma ReadDigitsThenStop(d: string, w: string, radix: int)
    requires radix == 0 || radix == 10
    requires d != [] && AllDigits(d, 10) && !HasHexPrefix(d)
    requires w == [] || DigitValue(w[0]).None?
    ensures ReadDigits(d + w, radix) == Some(DigitsValue(d, 10))
  {
    var u := d + w;
    if |d| == 1 && |u| >= 2 { assert u[1] == w[0]; }
    if |d| >= 2 { assert u[..2] == d[..2]; }
    assert !HasHexPrefix(u);
    DigitPrefixBeforeStop(d, w, 10);
    assert u[..|d|] == d;
  }

  lemma SignBeforeDigits(d: string, w: string)
    ensures ("-" + d) + w == "-" + (d + w)
  {
  }

  /** `parseInt` reads an integer's string back even when other text that does not start with
      a letter or digit follows it (`parseInt("2028-06")` is 2028). */
  lemma IntToStringPrefixRoundTrip(n: int, w: string, radix: int)
    requires radix == 0 || radix == 10
    requires w == [] || DigitValue(w[0]).None?
    ensures ParseInt(IntToString(n) + w, radix) == Some(n)
  {
    var m: nat := if n >= 0 then n else -n;
    var d := NatToString(m);
    IntToStringShape(n);
    MagnitudeReads(m, w, radix);
    if n >= 0 {
      assert (d + w)[0] == d[0];
      UnsignedReads(d + w, m, radix);
    } else {
      NegativeOfDigits(d + w, m, radix);
      SignBeforeDigits(d, w);
    }
  }

  /** The digits of `m` followed by a tail that does not start with a letter or digit read as
      `m`. */
  lemma MagnitudeReads(m: nat, w: string, radix: int)
    requires radix == 0 || radix == 10
    requires w == [] || DigitValue(w[0]).None?
    ensures ReadDigits(NatToString(m) + w, radix) == Some(m)
  {
    NatToStringNotHex(m);
    NatToStringValue(m);
    ReadDigitsThenStop(NatToString(m), w, radix);
  }

  /** Text starting with a decimal digit is read by `parseInt` as its digits are. */
  lemma UnsignedReads(u: string, v: nat, radix: int)
    requires radix == 0 || radix == 10
    requires u != [] && IsDigit(u[0], 10) && ReadDigits(u, radix) == Some(v)
    ensures ParseInt(u, radix) == Some(v)
  {
    DigitNotSpace(u[0]);
    ParseIntUnsigned(u, radix);
  }

  /** Two hexadecimal digits read in base 16 give a byte. */
  lemma {:induction false} HexPairValue(s: string)
    requires |s| == 2 && IsDigit(s[0], 16) && IsDigit(s[1], 16)
    ensures ParseInt(s, 16) == Some(DigitsValue(s, 16))
    ensures DigitsValue(s, 16) <= 255
  {
    HexPairReads(s);
    TwoHexDigitsBound(s);
  }

  /** Two hex digits make at most a byte. */
  lemma {:induction false} TwoHexDigitsBound(s: string)
    requires |s| == 2 && IsDigit(s[0], 16) && IsDigit(s[1], 16)
    ensures DigitsValue(s, 16) <= 255
  {
    TwoDigitsValue(s);
  }

  /** Two hex digits are read whole in base 16. */
  lemma {:induction false} HexPairReads(s: string)
    requires |s| == 2 && IsDigit(s[0], 16) && IsDigit(s[1], 16)
    ensures ParseInt(s, 16) == Some(DigitsValue(s, 16))
  {
    assert !HasHexPrefix(s);
    LetterOrDigitNotSpace(s[0]);
    ParseIntUnsigned(s, 16);
    ReadAllDigits(s, 16);
  }

  /** The value of a two-digit string in base 16. */
  lemma {:induction false} TwoDigitsValue(s: string)
    requires |s| == 2 && IsDigit(s[0], 16) && IsDigit(s[1], 16)
    ensures DigitsValue(s, 16) == 16 * DigitValue(s[0]).value + DigitValue(s[1]).value
  {
    var h := s[..1];
    assert h[0] == s[0] && h[..0] == [];
    assert DigitsValue(h, 16) == DigitValue(s[0]).value;
  }

  /** A character with a digit value in some radix is a letter or a digit, never whitespace. */
  lemma LetterOrDigitNotSpace(c: char)
    requires DigitValue(c).Some?
    ensures !IsSpace(c)
  {
  }

  // ---------------------------------------------------------------------------
  // Number(...) on strings, template stringification and the truncating remainder.

  function Pow10(k: nat): (p: nat)
    ensures p >= 1
  {
    if k == 0 then 1 else 10 * Pow10(k - 1)
  }

  /** An unsigned decimal literal `digits`, `digits.digits`, `digits.` or `.digits`. */
  function UnsignedDecimal(t: string): (r: Number)
  {
    match IndexOf(t, ".")
    case None =>
      if t != "" && AllDigits(t, 10) then Real(DigitsValue(t, 10) as real) else NotANumber
    case Some(i) =>
      var whole := t[..i];
      var frac := t[i + 1..];
      if (whole != "" || frac != "") && AllDigits(whole, 10) && AllDigits(frac, 10) then
        Real(DigitsValue(whole, 10) as real + (DigitsValue(frac, 10) as real) / (Pow10(|frac|) as real))
      else NotANumber
  }

  /** The base of a `0x`, `0o` or `0b` literal prefix (either case), or 0 when there is none. */
  function PrefixBase(t: string): (b: nat)
    ensures b == 0 || b == 2 || b == 8 || b == 16
    ensures b != 0 ==> |t| >= 2 && t[0] == '0'
  {
    if |t| >= 2 && t[0] == '0' then
      if t[1] == 'x' || t[1] == 'X' then 16
      else if t[1] == 'o' || t[1] == 'O' then 8
      else if t[1] == 'b' || t[1] == 'B' then 2
      else 0
    else 0
  }

  /** `Number(s)` for a string: surrounding whitespace is ignored, the empty string is 0,
      a `0x`, `0o` or `0b` literal is read in its base and a signed decimal literal exactly. */
  function ToNumber(s: string): (r: Number)
    ensures (forall k :: 0 <= k < |s| ==> IsSpace(s[k])) ==> r == Real(0.0)
    ensures s != [] && !IsSpace(s[0]) && !IsDigit(s[0], 10) && s[0] !in "+-." ==> r.NotANumber?
  {
    TrimOfBlank(s);
    NonNumericStart(s);
    NumberLiteral(Trim(s))
  }

  /** `Number` of a string without whitespace at its ends. */
  function NumberLiteral(t: string): (r: Number)
  {
    if t == "" then Real(0.0)
    else if PrefixBase(t) != 0 then
      var d := t[2..];
      if d != "" && AllDigits(d, PrefixBase(t)) then Real(DigitsValue(d, PrefixBase(t)) as real)
      else NotANumber
    else if t[0] == '-' then
      match UnsignedDecimal(t[1..])
      case Real(v) => Real(-v)
      case NotANumber => NotANumber
    else if t[0] == '+' then UnsignedDecimal(t[1..])
    else UnsignedDecimal(t)
  }

  /** A string of whitespace trims to the empty string. */
  lemma TrimOfBlank(s: string)
    ensures (forall k :: 0 <= k < |s| ==> IsSpace(s[k])) ==> Trim(s) == ""
  {
    var t, i := Trim(s), TrimOffset(s);
    if t != [] {
      assert t[0] == s[i];
    }
  }

  /** A string that starts with a non-blank trims to a text starting with that character. */
  lemma TrimStartsAtFirst(s: string)
    ensures s != [] && !IsSpace(s[0]) ==> Trim(s) != [] && Trim(s)[0] == s[0]
  {
    if s != [] && !IsSpace(s[0]) {
      var t, i := Trim(s), TrimOffset(s);
      assert i == 0;
      assert t != [];
      assert t[0] == s[i];
    }
  }

  /** A string whose first character is neither whitespace, a decimal digit, a sign nor a dot. */
  lemma NonNumericStart(s: string)
    ensures s != [] && !IsSpace(s[0]) && !IsDigit(s[0], 10) && s[0] !in "+-."
            ==> NumberLiteral(Trim(s)).NotANumber?
  {
    if s != [] && !IsSpace(s[0]) && !IsDigit(s[0], 10) && s[0] !in "+-." {
      TrimStartsAtFirst(s);
      NonNumericLiteral(Trim(s));
    }
  }

  /** A literal that starts with a character that can begin no number is NaN. */
  lemma NonNumericLiteral(t: string)
    requires t != [] && !IsDigit(t[0], 10) && t[0] !in "+-."
    ensures NumberLiteral(t).NotANumber?
  {
    match IndexOf(t, ".")
    case None =>
    case Some(i) =>
      assert i != 0 && t[..i][0] == t[0];
  }

  lemma NoDotInDigits(d: string)
    requires AllDigits(d, 10)
    ensures IndexOf(d, ".").None?
  {
    forall j ensures !OccursAt(d, ".", j) {
      if 0 <= j < |d| {
        assert IsDigit(d[j], 10);
      }
    }
  }

  /** `Number` of a trimmed string that starts with neither a sign nor a literal prefix. */
  lemma ToNumberUnsigned(t: string)
    requires Trim(t) == t && t != "" && PrefixBase(t) == 0 && t[0] != '-' && t[0] != '+'
    ensures ToNumber(t) == UnsignedDecimal(t)
  {
    assert ToNumber(t) == NumberLiteral(t);
  }

  /** `Number` of a trimmed string that starts with '-'. */
  lemma ToNumberNegative(t: string, v: real)
    requires Trim(t) == t && t != "" && t[0] == '-' && UnsignedDecimal(t[1..]) == Real(v)
    ensures ToNumber(t) == Real(-v)
  {
    assert ToNumber(t) == NumberLiteral(t);
    NegativeLiteral(t, v);
  }

  lemma NegativeLiteral(t: string, v: real)
    requires t != "" && t[0] == '-' && UnsignedDecimal(t[1..]) == Real(v)
    ensures NumberLiteral(t) == Real(-v)
  {
    assert PrefixBase(t) == 0;
  }

  /** A string of decimal digits reads as its value. */
  lemma DecimalOfDigits(d: string)
    requires d != [] && AllDigits(d, 10)
    ensures UnsignedDecimal(d) == Real(DigitsValue(d, 10) as real)
  {
    NoDotInDigits(d);
  }

  /** `Number` of digits without a literal prefix. */
  lemma ToNumberOfDigits(d: string)
    requires d != [] && AllDigits(d, 10) && PrefixBase(d) == 0
    ensures ToNumber(d) == Real(DigitsValue(d, 10) as real)
  {
    DigitNotSpace(d[0]);
    DigitNotSpace(d[|d| - 1]);
    TrimOfNoEdgeSpace(d);
    DecimalOfDigits(d);
    ToNumberUnsigned(d);
  }

  /** `Number` of a minus sign before the digits of `-n`. */
  lemma ToNumberOfSignedDigits(d: string, n: int)
    requires d != [] && AllDigits(d, 10) && DigitsValue(d, 10) == -n
    ensures ToNumber("-" + d) == Real(n as real)
  {
    var t := "-" + d;
    DigitNotSpace(d[|d| - 1]);
    assert t[|t| - 1] == d[|d| - 1] && t[1..] == d;
    TrimOfNoEdgeSpace(t);
    DecimalOfDigits(d);
    ToNumberNegative(t, (-n) as real);
  }

  lemma ToNumberOfNegative(n: int)
    requires n < 0
    ensures ToNumber(IntToString(n)) == Real(n as real)
  {
    IntToStringShape(n);
    NatToStringValue(-n);
    ToNumberOfSignedDigits(NatToString(-n), n);
  }

  lemma ToNumberOfNonNegative(n: int)
    requires n >= 0
    ensures ToNumber(IntToString(n)) == Real(n as real)
  {
    IntToStringShape(n);
    NatToStringValue(n);
    NatToStringNotHex(n);
    ToNumberOfDigits(NatToString(n));
  }

  /** `Number` reads back the decimal string of an integer. */
  lemma ToNumberOfIntToString(n: int)
    ensures ToNumber(IntToString(n)) == Real(n as real)
  {
    if n >= 0 { ToNumberOfNonNegative(n); } else { ToNumberOfNegative(n); }
  }

  /** `Number(v)` for a stored value. */
  function ValueToNumber(v: Value): (r: Number)
    ensures v.Int? ==> r == Real(v.i as real)
    ensures v.NaN? || v.Undefined? ==> r == NotANumber
  {
    match v
    case Str(s) => ToNumber(s)
    case Bool(b) => Real(if b then 1.0 else 0.0)
    case Int(i) => Real(i as real)
    case NaN => NotANumber
    case Undefined => NotANumber
  }

  /** `x / d` for a nonzero constant divisor; NaN propagates. */
  function DivBy(x: Number, d: real): (r: Number)
    requires d != 0.0
    ensures x.NotANumber? <==> r.NotANumber?
    ensures x.Real? ==> r.r * d == x.r
  {
    match x
    case Real(v) => Real(v / d)
    case NotANumber => NotANumber
  }

  /** `x * k`; NaN propagates. */
  function Times(x: Number, k: real): (r: Number)
    ensures x.NotANumber? <==> r.NotANumber?
  {
    match x
    case Real(v) => Real(v * k)
    case NotANumber => NotANumber
  }

  lemma DivByReal(v: real, d: real)
    requires d != 0.0
    ensures DivBy(Real(v), d) == Real(v / d)
  {
  }

  /** `x + k`; NaN propagates. */
  function Plus(x: Number, k: real): (r: Number)
    ensures x.NotANumber? <==> r.NotANumber?
  {
    match x
    case Real(v) => Real(v + k)
    case NotANumber => NotANumber
  }

  /** Template-literal stringification of a stored value. */
  function ValueToString(v: Value): string
  {
    match v
    case Str(s) => s
    case Bool(b) => if b then "true" else "false"
    case Int(i) => IntToString(i)
    case NaN => "NaN"
    case Undefined => "undefined"
  }

  /** JavaScript's `a % b` on integers: the remainder takes the sign of the dividend. */
  function JsRem(a: int, b: int): (r: int)
    requires b != 0
    ensures a >= 0 ==> 0 <= r < (if b > 0 then b else -b)
    ensures a < 0 ==> -(if b > 0 then b else -b) < r <= 0
    ensures exists q :: a == q * b + r
  {
    var m := if b > 0 then b else -b;
    if a >= 0 then
      assert a == (a / m) * m + a % m;
      assert a == (if b > 0 then a / m else -(a / m)) * b + a % m;
      a % m
    else
      assert -a == ((-a) / m) * m + (-a) % m;
      assert a == (if b > 0 then -((-a) / m) else (-a) / m) * b + -((-a) % m);
      -((-a) % m)
  }

  /** The truncating remainder differs from Dafny's Euclidean one on negative dividends. */
  lemma JsRemOfNegativeOdd(row: int)
    requires row < 0 && row % 2 == 1
    ensures JsRem(row, 2) == -1
  {
  }
}
