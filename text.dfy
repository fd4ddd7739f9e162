/**
 * The string operations of Python that the order engine relies on, restricted to ASCII:
 * `str.strip`, `str.lower`, `str.upper`, `re.sub(r"\s+", "", ...)`, `in` on strings,
 * `str.find`, `str.split` on one character, `str.join`, `str.replace` of one character,
 * `str.isdigit`, `int(...)` on text, `str(n)` on integers, `html.escape` and string `<`.
 */
module Text {
  import opened Wrappers

  /** The characters Python's `str.isspace` (and `\s` in `re`) accept, within ASCII. */
  predicate IsSpace(c: char) {
    c == ' ' || c == '\t' || c == '\n' || c == '\r' || c == '\U{0B}' || c == '\U{0C}'
    || ('\U{1C}' <= c <= '\U{1F}')
  }

  predicate IsDigit(c: char) { '0' <= c <= '9' }

  function LowerChar(c: char): char {
    if 'A' <= c <= 'Z' then (c as int + 32) as char else c
  }

  function UpperChar(c: char): char {
    if 'a' <= c <= 'z' then (c as int - 32) as char else c
  }

  /** The number of whitespace characters `s.lstrip()` removes. */
  function LeadingSpaces(s: string): (n: nat)
    ensures n <= |s|
    ensures n < |s| ==> !IsSpace(s[n])
  {
    if s != [] && IsSpace(s[0]) then 1 + LeadingSpaces(s[1..]) else 0
  }

  /** Everything `s.lstrip()` removes is whitespace. */
  lemma {:induction false} LeadingSpacesAreSpaces(s: string, i: nat)
    requires i < LeadingSpaces(s)
    ensures IsSpace(s[i])
  {
    if i > 0 {
      LeadingSpacesAreSpaces(s[1..], i - 1);
    }
  }

  /** The number of whitespace characters `s.rstrip()` removes. */
  function TrailingSpaces(s: string): (n: nat)
    ensures n <= |s|
    ensures n < |s| ==> !IsSpace(s[|s| - n - 1])
  {
    if s != [] && IsSpace(s[|s| - 1]) then 1 + TrailingSpaces(s[..|s| - 1]) else 0
  }

  /** Everything `s.rstrip()` removes is whitespace. */
  lemma {:induction false} TrailingSpacesAreSpaces(s: string, i: nat)
    requires |s| - TrailingSpaces(s) <= i < |s|
    ensures IsSpace(s[i])
  {
    if i < |s| - 1 {
      TrailingSpacesAreSpaces(s[..|s| - 1], i);
    }
  }

  /** `s.lstrip()`. */
  function StripLeft(s: string): string {
    s[LeadingSpaces(s)..]
  }

  /** `s.rstrip()`. */
  function StripRight(s: string): string {
    s[..|s| - TrailingSpaces(s)]
  }

  /** `r` is `s` without some whitespace-only prefix and some whitespace-only suffix. */
  predicate TrimOf(r: string, s: string) {
    exists i, j ::
      0 <= i <= j <= |s| && r == s[i..j]
      && (forall k :: 0 <= k < i ==> IsSpace(s[k])) && (forall k :: j <= k < |s| ==> IsSpace(s[k]))
  }

  /**
   * `s.strip()`: `s` with a whitespace-only prefix and suffix removed, leaving an infix that neither
   * starts nor ends with whitespace.
   */
  function Strip(s: string): (r: string)
    ensures |r| <= |s|
    ensures r != [] ==> !IsSpace(r[0]) && !IsSpace(r[|r| - 1])
    ensures TrimOf(r, s)
  {
    var i := LeadingSpaces(s);
    var j := |s| - TrailingSpaces(s[i..]);
    StripBounds(s, i, j);
    StripRight(StripLeft(s))
  }

  /** The whitespace `Strip` removes: everything before `i` and everything from `j` on. */
  lemma StripBounds(s: string, i: nat, j: int)
    requires i == LeadingSpaces(s) && j == |s| - TrailingSpaces(s[i..])
    ensures i <= j <= |s| && StripRight(StripLeft(s)) == s[i..j]
    ensures forall k :: 0 <= k < i ==> IsSpace(s[k])
    ensures forall k :: j <= k < |s| ==> IsSpace(s[k])
  {
    assert StripLeft(s) == s[i..];
    assert StripRight(s[i..]) == s[i..][..j - i] == s[i..j];
    forall k | 0 <= k < i {
      LeadingSpacesAreSpaces(s, k);
    }
    forall k | j <= k < |s| {
      SuffixTrailingSpace(s, i, k);
    }
  }

  lemma SuffixTrailingSpace(s: string, i: nat, k: int)
    requires i <= |s| && |s| - TrailingSpaces(s[i..]) <= k < |s|
    ensures IsSpace(s[k])
  {
    var t := s[i..];
    TrailingSpacesAreSpaces(t, k - i);
    assert t[k - i] == s[k];
  }

  /** `s.lower()`, ASCII letters only. */
  function Lower(s: string): (r: string)
    ensures |r| == |s|
    ensures forall i {:trigger r[i]} :: 0 <= i < |s| ==> r[i] == LowerChar(s[i])
  {
    seq(|s|, i requires 0 <= i < |s| => LowerChar(s[i]))
  }

  /** `s.upper()`, ASCII letters only. */
  function Upper(s: string): (r: string)
    ensures |r| == |s|
    ensures forall i {:trigger r[i]} :: 0 <= i < |s| ==> r[i] == UpperChar(s[i])
  {
    seq(|s|, i requires 0 <= i < |s| => UpperChar(s[i]))
  }

  /** `re.sub(r"\s+", "", s)`: every whitespace character removed, the rest kept in order. */
  function RemoveSpaces(s: string): (r: string)
    ensures |r| <= |s|
    ensures forall i :: 0 <= i < |r| ==> !IsSpace(r[i])
    ensures forall c :: c in r <==> c in s && !IsSpace(c)
  {
    if s == [] then []
    else RemoveSpaces(s[..|s| - 1]) + (if IsSpace(s[|s| - 1]) then [] else [s[|s| - 1]])
  }

  /** Lower-casing works character by character, so it distributes over concatenation. */
  lemma LowerConcat(a: string, b: string)
    ensures Lower(a + b) == Lower(a) + Lower(b)
  {
    assert forall i :: 0 <= i < |a + b| ==> Lower(a + b)[i] == (Lower(a) + Lower(b))[i];
  }

  /** One more character: removed when it is whitespace, kept otherwise. */
  lemma RemoveSpacesSnoc(a: string, c: char)
    ensures RemoveSpaces(a + [c]) == RemoveSpaces(a) + (if IsSpace(c) then [] else [c])
  {
    assert (a + [c])[..|a|] == a;
  }

  /** Removing whitespace works piece by piece, so the kept characters stay in their order. */
  lemma {:induction false} RemoveSpacesConcat(a: string, b: string)
    ensures RemoveSpaces(a + b) == RemoveSpaces(a) + RemoveSpaces(b)
    decreases |b|
  {
    if b == [] {
      assert a + b == a;
    } else {
      var n := |b| - 1;
      assert a + b == (a + b[..n]) + [b[n]];
      assert b == b[..n] + [b[n]];
      RemoveSpacesConcat(a, b[..n]);
      RemoveSpacesSnoc(a + b[..n], b[n]);
      RemoveSpacesSnoc(b[..n], b[n]);
    }
  }

  /** Every non-whitespace character is kept as often as it occurs, and no whitespace is kept. */
  lemma {:induction false} RemoveSpacesCounts(s: string)
    ensures forall c :: multiset(RemoveSpaces(s))[c] == if IsSpace(c) then 0 else multiset(s)[c]
    decreases |s|
  {
    if s != [] {
      var a, c := s[..|s| - 1], s[|s| - 1];
      assert s == a + [c];
      RemoveSpacesCounts(a);
      RemoveSpacesSnoc(a, c);
      assert multiset(s) == multiset(a) + multiset{c};
    }
  }

  /** Removing whitespace and lower-casing commute, since lower-casing maps no letter to whitespace. */
  lemma {:induction false} LowerRemoveSpaces(s: string)
    ensures Lower(RemoveSpaces(s)) == RemoveSpaces(Lower(s))
    decreases |s|
  {
    if s != [] {
      var a, c := s[..|s| - 1], s[|s| - 1];
      var t := if IsSpace(c) then [] else [c];
      var lc := LowerChar(c);
      assert s == a + [c];
      assert Lower([c]) == [lc] && (IsSpace(lc) <==> IsSpace(c));
      calc {
        Lower(RemoveSpaces(s));
        { RemoveSpacesSnoc(a, c); }
        Lower(RemoveSpaces(a) + t);
        { LowerConcat(RemoveSpaces(a), t); }
        Lower(RemoveSpaces(a)) + Lower(t);
        { LowerRemoveSpaces(a); }
        RemoveSpaces(Lower(a)) + (if IsSpace(lc) then [] else [lc]);
        { RemoveSpacesSnoc(Lower(a), lc); }
        RemoveSpaces(Lower(a) + [lc]);
        { LowerConcat(a, [c]); }
        RemoveSpaces(Lower(s));
      }
    }
  }

  /** `s.replace(a, b)` for single characters. */
  function ReplaceChar(s: string, a: char, b: char): (r: string)
    ensures |r| == |s|
    ensures forall i {:trigger r[i]} :: 0 <= i < |s| ==> r[i] == (if s[i] == a then b else s[i])
  {
    seq(|s|, i requires 0 <= i < |s| => if s[i] == a then b else s[i])
  }

  /** Whether `needle` occurs in `hay` at position `i`. */
  predicate OccursAt(hay: string, needle: string, i: int) {
    0 <= i && i + |needle| <= |hay| && hay[i..i + |needle|] == needle
  }

  lemma OccursAtStart(hay: string, needle: string)
    ensures OccursAt(hay, needle, 0) <==> needle <= hay
  {
    if needle <= hay { assert hay[..|needle|] == needle; }
  }

  lemma OccursShift(hay: string, needle: string, j: int)
    requires hay != [] && j >= 0
    ensures OccursAt(hay[1..], needle, j) <==> OccursAt(hay, needle, j + 1)
  {
    if j + |needle| <= |hay| - 1 {
      assert hay[1..][j..j + |needle|] == hay[j + 1..j + 1 + |needle|];
    }
  }

  /** Python's `needle in hay` for strings (the empty needle occurs everywhere). */
  function Contains(hay: string, needle: string): (b: bool)
    ensures b <==> exists i :: OccursAt(hay, needle, i)
    decreases |hay|
  {
    OccursAtStart(hay, needle);
    if needle <= hay then true
    else if hay == [] then false
    else
      var b := Contains(hay[1..], needle);
      assert b ==> exists i :: OccursAt(hay, needle, i) by {
        if b {
          var i :| OccursAt(hay[1..], needle, i);
          OccursShift(hay, needle, i);
        }
      }
      assert (exists i :: OccursAt(hay, needle, i)) ==> b by {
        if exists i :: OccursAt(hay, needle, i) {
          var i :| OccursAt(hay, needle, i);
          OccursShift(hay, needle, i - 1);
        }
      }
      b
  }

  /** Python's `hay.find(needle)`: the first position where `needle` occurs, or -1. */
  function Find(hay: string, needle: string): (i: int)
    ensures -1 <= i <= |hay|
    ensures i >= 0 ==> i + |needle| <= |hay|
    decreases |hay|
  {
    if needle <= hay then 0
    else if hay == [] then -1
    else
      var k := Find(hay[1..], needle);
      if k == -1 then -1 else k + 1
  }

  /** `find` answers -1 exactly when the needle does not occur, and otherwise its first position. */
  lemma {:induction false} FindSpec(hay: string, needle: string)
    ensures Find(hay, needle) == -1 <==> !exists j :: OccursAt(hay, needle, j)
    ensures Find(hay, needle) >= 0 ==>
      OccursAt(hay, needle, Find(hay, needle)) && forall j :: 0 <= j < Find(hay, needle) ==> !OccursAt(hay, needle, j)
  {
    var i := Find(hay, needle);
    if i >= 0 {
      FindOccurs(hay, needle);
    }
    forall j | OccursAt(hay, needle, j) ensures 0 <= i <= j {
      FindAtMost(hay, needle, j);
    }
  }

  /** A non-negative result of `Find` is an occurrence. */
  lemma {:induction false} FindOccurs(hay: string, needle: string)
    requires Find(hay, needle) >= 0
    ensures OccursAt(hay, needle, Find(hay, needle))
    decreases |hay|
  {
    OccursAtStart(hay, needle);
    if !(needle <= hay) {
      FindOccurs(hay[1..], needle);
      OccursShift(hay, needle, Find(hay[1..], needle));
    }
  }

  /** `Find` is at or before every occurrence. */
  lemma {:induction false} FindAtMost(hay: string, needle: string, j: int)
    requires OccursAt(hay, needle, j)
    ensures 0 <= Find(hay, needle) <= j
    decreases |hay|
  {
    OccursAtStart(hay, needle);
    if !(needle <= hay) {
      assert j >= 1;
      OccursShift(hay, needle, j - 1);
      FindAtMost(hay[1..], needle, j - 1);
    }
  }


  /** The first index of character `c` in `s`, for a string that contains it. */
  function IndexOf(s: string, c: char): (i: nat)
    requires c in s
    ensures i < |s| && s[i] == c && c !in s[..i]
  {
    if s[0] == c then 0 else 1 + IndexOf(s[1..], c)
  }

  /** `sep.join(parts)`. */
  function Join(parts: seq<string>, sep: string): string {
    if |parts| == 0 then ""
    else if |parts| == 1 then parts[0]
    else parts[0] + sep + Join(parts[1..], sep)
  }

  lemma {:induction false} JoinAppend(parts: seq<string>, x: string, sep: string)
    requires parts != []
    ensures Join(parts + [x], sep) == Join(parts, sep) + sep + x
    decreases |parts|
  {
    if |parts| == 1 {
      assert parts + [x] == [parts[0], x];
    } else {
      assert (parts + [x])[1..] == parts[1..] + [x];
      JoinAppend(parts[1..], x, sep);
    }
  }

  /** `s.split(c)` for a one-character separator: the pieces between the separators. */
  function Split(s: string, c: char): (parts: seq<string>)
    ensures |parts| >= 1
    ensures forall i :: 0 <= i < |parts| ==> c !in parts[i]
    ensures Join(parts, [c]) == s
    decreases |s|
  {
    if c !in s then [s]
    else
      var i := IndexOf(s, c);
      var rest := Split(s[i + 1..], c);
      assert s == s[..i] + [c] + s[i + 1..];
      [s[..i]] + rest
  }

  /** Joining two non-empty lists is joining each and putting the separator between. */
  lemma {:induction false} JoinConcat(p: seq<string>, q: seq<string>, sep: string)
    requires p != [] && q != []
    ensures Join(p + q, sep) == Join(p, sep) + sep + Join(q, sep)
    decreases |q|
  {
    var n := |q| - 1;
    if n == 0 {
      assert p + q == p + [q[0]];
      JoinAppend(p, q[0], sep);
    } else {
      var q', x := q[..n], q[n];
      assert q == q' + [x];
      assert p + q == (p + q') + [x];
      JoinAppend(p + q', x, sep);
      JoinConcat(p, q', sep);
      JoinAppend(q', x, sep);
    }
  }

  /** Splitting at one separator character splits the two sides independently. */
  lemma SplitConcat(a: string, b: string, c: char)
    ensures Split(a + [c] + b, c) == Split(a, c) + Split(b, c)
  {
    var pq := Split(a, c) + Split(b, c);
    JoinSplits(a, b, c);
    SplitsFree(Split(a, c), Split(b, c), c);
    SplitJoin(pq, c);
  }

  lemma JoinSplits(a: string, b: string, c: char)
    ensures Join(Split(a, c) + Split(b, c), [c]) == a + [c] + b
  {
    JoinConcat(Split(a, c), Split(b, c), [c]);
  }

  lemma SplitsFree(p: seq<string>, q: seq<string>, c: char)
    requires forall i :: 0 <= i < |p| ==> c !in p[i]
    requires forall i :: 0 <= i < |q| ==> c !in q[i]
    ensures forall i :: 0 <= i < |p + q| ==> c !in (p + q)[i]
  {
    forall i | 0 <= i < |p + q| ensures c !in (p + q)[i] {
      if i >= |p| { assert (p + q)[i] == q[i - |p|]; }
    }
  }

  /** Splitting a joined list of separator-free pieces gives the pieces back. */
  lemma {:induction false} SplitJoin(parts: seq<string>, c: char)
    requires parts != []
    requires forall i :: 0 <= i < |parts| ==> c !in parts[i]
    ensures Split(Join(parts, [c]), c) == parts
    decreases |parts|
  {
    if |parts| == 1 {
    } else {
      var s := Join(parts, [c]);
      assert s == parts[0] + [c] + Join(parts[1..], [c]);
      assert c in s by { assert s[|parts[0]|] == c; }
      IndexOfAfterPrefix(parts[0], c, Join(parts[1..], [c]));
      assert s[|parts[0]| + 1..] == Join(parts[1..], [c]);
      assert s[..|parts[0]|] == parts[0];
      SplitJoin(parts[1..], c);
    }
  }

  /** The characters of `a`, then `sep`, then `b`. */
  lemma InJoined(a: string, b: string, sep: char, c: char)
    ensures c in a + [sep] + b <==> c in a || c == sep || c in b
  {
    var s := a + [sep] + b;
    if c in s {
      var i :| 0 <= i < |s| && s[i] == c;
      if i < |a| { assert a[i] == c; } else if i > |a| { assert b[i - |a| - 1] == c; }
    }
    if c in a {
      var i :| 0 <= i < |a| && a[i] == c;
      assert s[i] == c;
    }
    if c in b {
      var i :| 0 <= i < |b| && b[i] == c;
      assert s[|a| + 1 + i] == c;
    }
    assert s[|a|] == sep;
  }

  lemma IndexOfAfterPrefix(p: string, c: char, rest: string)
    requires c !in p
    ensures c in p + [c] + rest && IndexOf(p + [c] + rest, c) == |p|
  {
    var s := p + [c] + rest;
    assert s[|p|] == c;
    var i := IndexOf(s, c);

  }

  predicate IsDigits(s: string) {
    s != [] && forall i :: 0 <= i < |s| ==> IsDigit(s[i])
  }

  function DigitsValue(s: string): (n: nat)
    requires forall i :: 0 <= i < |s| ==> IsDigit(s[i])
  {
    if s == [] then 0
    else
      assert IsDigit(s[|s| - 1]);
      10 * DigitsValue(s[..|s| - 1]) + (s[|s| - 1] as int - '0' as int)
  }

  /** `int(s)` for text: surrounding whitespace, an optional sign and at least one ASCII digit. */
  function ParseInt(s: string): (r: Option<int>)
    ensures r.Some? ==> Strip(s) != []
  {
    var t := Strip(s);
    if t == [] then None
    else if t[0] == '-' || t[0] == '+' then
      if IsDigits(t[1..]) then
        var v: int := DigitsValue(t[1..]);
        Some(if t[0] == '-' then -v else v)
      else None
    else if IsDigits(t) then Some(DigitsValue(t))
    else None
  }

  /** `str(n)` for a non-negative integer. */
  function ShowNat(n: nat): (s: string)
    ensures IsDigits(s)
    ensures DigitsValue(s) == n
  {
    if n < 10 then [('0' as int + n) as char]
    else
      var s := ShowNat(n / 10) + [('0' as int + n % 10) as char];
      assert s[..|s| - 1] == ShowNat(n / 10);
      s
  }

  /** `str(n)`. */
  function ShowInt(n: int): (s: string) {
    if n < 0 then "-" + ShowNat(-n) else ShowNat(n)
  }

  lemma StripDigits(s: string)
    requires IsDigits(s)
    ensures Strip(s) == s
  {
    assert !IsSpace(s[0]) && !IsSpace(s[|s| - 1]);
  }

  /** `int(str(n)) == n`. */
  lemma ParseShowInt(n: int)
    ensures ParseInt(ShowInt(n)) == Some(n)
  {
    var s := ShowInt(n);
    if n < 0 {
      var d := ShowNat(-n);
      assert s == "-" + d && s[1..] == d;
      assert !IsSpace(s[0]) && !IsSpace(s[|s| - 1]);
      assert Strip(s) == s;
    } else {
      StripDigits(s);
    }
  }

  lemma ShowIntShape(n: int)
    ensures ShowInt(n) != []
    ensures forall i :: 0 <= i < |ShowInt(n)| ==> IsDigit(ShowInt(n)[i]) || ShowInt(n)[i] == '-'
  {
  }

  /** Python's `<` on strings: lexicographic by code point, a proper prefix first. */
  predicate StrLess(a: string, b: string) {
    if a == [] then b != []
    else if b == [] then false
    else if a[0] != b[0] then a[0] < b[0]
    else StrLess(a[1..], b[1..])
  }

  lemma {:induction false} StrLessIrreflexive(a: string)
    ensures !StrLess(a, a)
    decreases |a|
  {
    if a != [] { StrLessIrreflexive(a[1..]); }
  }

  lemma {:induction false} StrLessTransitive(a: string, b: string, c: string)
    requires StrLess(a, b) && StrLess(b, c)
    ensures StrLess(a, c)
    decreases |a|
  {
    if a != [] && b != [] && c != [] && a[0] == b[0] && b[0] == c[0] {
      StrLessTransitive(a[1..], b[1..], c[1..]);
    }
  }

  lemma {:induction false} StrLessTotal(a: string, b: string)
    ensures a == b || StrLess(a, b) || StrLess(b, a)
    decreases |a|
  {
    if a != [] && b != [] && a[0] == b[0] {
      StrLessTotal(a[1..], b[1..]);
      if a[1..] == b[1..] { assert a == [a[0]] + a[1..] && b == [b[0]] + b[1..]; }
    }
  }

  /** `html.escape(c)` for one character. */
  function EscapeChar(c: char): string {
    if c == '&' then "&amp;"
    else if c == '<' then "&lt;"
    else if c == '>' then "&gt;"
    else if c == '"' then "&quot;"
    else if c == '\'' then "&#x27;"
    else [c]
  }

  /** The strings `f` gives for the elements of `s`, concatenated. */
  function FlatMap<T>(s: seq<T>, f: T -> string): string {
    if s == [] then [] else FlatMap(s[..|s| - 1], f) + f(s[|s| - 1])
  }

  lemma {:induction false} FlatMapConcat<T>(a: seq<T>, b: seq<T>, f: T -> string)
    ensures FlatMap(a + b, f) == FlatMap(a, f) + FlatMap(b, f)
    decreases |b|
  {
    if b != [] {
      var n := |b| - 1;
      assert (a + b)[..|a + b| - 1] == a + b[..n];
      FlatMapConcat(a, b[..n], f);
    } else {
      assert a + b == a;
    }
  }

  /** `html.escape(s)`: the text with the five markup characters written as entities. */
  function Escape(s: string): string {
    FlatMap(s, EscapeChar)
  }

  /** Escaped text holds no angle bracket and no quote, so it cannot open or close a tag or an attribute. */
  lemma {:induction false} EscapeNoMarkup(s: string)
    ensures '<' !in Escape(s) && '>' !in Escape(s) && '"' !in Escape(s) && '\'' !in Escape(s)
  {
    if s != [] {
      EscapeNoMarkup(s[..|s| - 1]);
      EscapeCharNoMarkup(s[|s| - 1]);
    }
  }

  lemma EscapeCharNoMarkup(c: char)
    ensures '<' !in EscapeChar(c) && '>' !in EscapeChar(c) && '"' !in EscapeChar(c) && '\'' !in EscapeChar(c)
  {
  }
}
