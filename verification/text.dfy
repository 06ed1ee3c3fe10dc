/** The part of Python's `str` behaviour the extraction engine relies on,
    stated over `seq<char>`: `in`, `find`, clamped slicing, `split` on one
    character, `join`, `strip`, `lstrip(chars)`, `startswith`, one-character
    `replace`, and case mapping (ASCII letters only). */
module Text {

  function Min(a: int, b: int): int { if a <= b then a else b }

  function Max(a: int, b: int): int { if a >= b then a else b }

  // ---------------------------------------------------------------------
  // Characters
  // ---------------------------------------------------------------------

  /** Python's `str.isspace` on one character: the Unicode whitespace set. */
  predicate IsSpace(c: char) {
    || ('\t' <= c <= '\r')
    || ('\U{1C}' <= c <= '\U{1F}')
    || c == ' ' || c == '\U{85}' || c == '\U{A0}' || c == '\U{1680}'
    || ('\U{2000}' <= c <= '\U{200A}')
    || c == '\U{2028}' || c == '\U{2029}' || c == '\U{202F}'
    || c == '\U{205F}' || c == '\U{3000}'
  }

  /** `str.isdigit` on one character, restricted to the ASCII digits. */
  predicate IsDigit(c: char) { '0' <= c <= '9' }

  function LowerChar(c: char): char {
    if 'A' <= c <= 'Z' then (c as int + 32) as char else c
  }

  function UpperChar(c: char): char {
    if 'a' <= c <= 'z' then (c as int - 32) as char else c
  }

  /** `s.lower()`, mapping ASCII letters only, so the length is kept and
      an index into the lowered text is an index into the original. */
  function Lower(s: string): (r: string)
    ensures |r| == |s|
    ensures forall i :: 0 <= i < |s| ==> r[i] == LowerChar(s[i])
  {
    seq(|s|, i requires 0 <= i < |s| => LowerChar(s[i]))
  }

  /** A lower-case letter that `s` holds in neither case is missing from
      its lower-cased form. */
  lemma LowerMissing(s: string, c: char)
    requires 'a' <= c <= 'z' && c !in s && UpperChar(c) !in s
    ensures c !in Lower(s)
  {
    forall i | 0 <= i < |s| ensures Lower(s)[i] != c {
      assert s[i] in s;
    }
  }

  /** `s.upper()`, mapping ASCII letters only. */
  function Upper(s: string): (r: string)
    ensures |r| == |s|
    ensures forall i :: 0 <= i < |s| ==> r[i] == UpperChar(s[i])
  {
    seq(|s|, i requires 0 <= i < |s| => UpperChar(s[i]))
  }

  /** `s.replace(a, b)` for single characters. */
  function ReplaceChar(s: string, a: char, b: char): (r: string)
    ensures |r| == |s|
    ensures forall i :: 0 <= i < |s| ==> r[i] == (if s[i] == a then b else s[i])
  {
    seq(|s|, i requires 0 <= i < |s| => if s[i] == a then b else s[i])
  }

  // ---------------------------------------------------------------------
  // Substring search: `p in s` and `s.find(p)`
  // ---------------------------------------------------------------------

  /** `p` occurs in `s` starting at index `i`. */
  predicate OccursAt(s: string, p: string, i: int) {
    0 <= i && i + |p| <= |s| && s[i..i + |p|] == p
  }

  /** Reference meaning of Python's `p in s`: some occurrence exists. */
  ghost predicate Mentions(s: string, p: string) {
    exists i :: OccursAt(s, p, i)
  }

  /** The first occurrence of `p` in `s` at or after `k`, or -1. */
  function FindFrom(s: string, p: string, k: nat): (r: int)
    ensures r == -1 || (k <= r && OccursAt(s, p, r))
    ensures forall j :: k <= j && (r == -1 || j < r) ==> !OccursAt(s, p, j)
    decreases |s| - k
  {
    if k + |p| > |s| then -1
    else if s[k..k + |p|] == p then k
    else FindFrom(s, p, k + 1)
  }

  /** `s.find(p)`: the first index at which `p` occurs, or -1. */
  function Find(s: string, p: string): (r: int)
    ensures -1 <= r
    ensures r >= 0 ==> OccursAt(s, p, r)
    ensures forall j :: 0 <= j && (r == -1 || j < r) ==> !OccursAt(s, p, j)
  {
    FindFrom(s, p, 0)
  }

  /** `p in s`. */
  predicate Contains(s: string, p: string)
    ensures Contains(s, p) <==> Mentions(s, p)
  {
    Find(s, p) >= 0
  }

  /** The first occurrence of `p` in `s`, for callers that already know it
      occurs. */
  function FirstIndex(s: string, p: string): (i: nat)
    requires Contains(s, p)
    ensures OccursAt(s, p, i)
    ensures forall j :: 0 <= j < i ==> !OccursAt(s, p, j)
  {
    Find(s, p)
  }

  /** An occurrence of `q` inside an occurrence of `p` is an occurrence of
      `q` in the whole text. */
  lemma OccursWithin(s: string, p: string, q: string, i: int, k: int)
    requires OccursAt(s, p, i) && OccursAt(p, q, k)
    ensures OccursAt(s, q, i + k)
  {
    var w := s[i..i + |p|];
    forall j | 0 <= j < |q| ensures s[i + k + j] == q[j] {
      assert s[i + k + j] == w[k + j];
    }
    assert s[i + k..i + k + |q|] == q;
  }

  /** A pattern holding a character the text lacks does not occur in it. */
  lemma MissingCharRulesOut(s: string, p: string, k: int)
    requires 0 <= k < |p| && p[k] !in s
    ensures !Contains(s, p)
  {
    forall i ensures !OccursAt(s, p, i) {
      if 0 <= i && i + |p| <= |s| {
        assert s[i..i + |p|][k] == s[i + k];
        assert s[i + k] in s;
      }
    }
  }

  /** The first index of character `c` in `s`. */
  function FirstChar(s: string, c: char): (i: nat)
    requires c in s
    ensures i < |s| && s[i] == c && c !in s[..i]
    decreases |s|
  {
    if s[0] == c then 0 else 1 + FirstChar(s[1..], c)
  }

  /** `s.split(c, 1)[-1]`: the text after the first `c`, or all of `s`
      when there is none. */
  function AfterFirst(s: string, c: char): (r: string)
    ensures c in s ==> |r| < |s| && r == s[|s| - |r|..] && s[|s| - |r| - 1] == c
                       && c !in s[..|s| - |r| - 1]
    ensures c !in s ==> r == s
  {
    if c in s then s[FirstChar(s, c) + 1..] else s
  }

  /** The first `c` of `a + [c] + b`, when `a` holds none, is the one
      after `a`. */
  lemma {:induction false} FirstCharAfter(a: string, c: char, b: string)
    requires c !in a
    ensures c in a + [c] + b
    ensures FirstChar(a + [c] + b, c) == |a|
    decreases |a|
  {
    var s := a + [c] + b;
    assert s[|a|] == c;
    if |a| > 0 {
      assert s[1..] == a[1..] + [c] + b;
      FirstCharAfter(a[1..], c, b);
    }
  }

  /** `(a + c + b).split(c, 1)[-1]` is `b` when `a` holds no `c`. */
  lemma AfterFirstOf(a: string, c: char, b: string)
    requires c !in a
    ensures AfterFirst(a + [c] + b, c) == b
  {
    FirstCharAfter(a, c, b);
    assert (a + [c] + b)[|a| + 1..] == b;
  }

  // ---------------------------------------------------------------------
  // Slicing
  // ---------------------------------------------------------------------

  /** Python's clamped slice `s[lo:hi]` for non-negative bounds: bounds past
      the end are cut back, and a reversed range is empty. */
  function Slice<T>(s: seq<T>, lo: nat, hi: nat): (r: seq<T>)
    ensures |r| == Max(0, Min(hi, |s|) - lo)
    ensures forall i :: 0 <= i < |r| ==> r[i] == s[lo + i]
  {
    if lo >= |s| || hi <= lo then [] else s[lo..Min(hi, |s|)]
  }

  /** `s[:n]`. */
  function Take<T>(s: seq<T>, n: nat): (r: seq<T>)
    ensures |r| == Min(n, |s|)
    ensures r == s[..|r|]
  {
    Slice(s, 0, n)
  }

  /** An occurrence inside a slice is an occurrence in the whole text that
      lies entirely below the slice's upper bound. */
  lemma OccursInSlice(s: string, p: string, lo: nat, hi: nat, i: int)
    requires |p| > 0
    ensures OccursAt(Slice(s, lo, hi), p, i)
        <==> (0 <= i && lo + i + |p| <= hi && OccursAt(s, p, lo + i))
  {
    var w := Slice(s, lo, hi);
    if 0 <= i && i + |p| <= |w| {
      assert lo + i + |p| <= |s|;
      assert w[i..i + |p|] == s[lo + i..lo + i + |p|];
    }
    if 0 <= i && lo + i + |p| <= hi && OccursAt(s, p, lo + i) {
      assert i + |p| <= |w|;
    }
  }

  /** `p in s[lo:hi]` holds exactly when `p` occurs in `s` at some position
      at or after `lo` and ends no later than `hi`. */
  lemma ContainsSlice(s: string, p: string, lo: nat, hi: nat)
    requires |p| > 0
    ensures Contains(Slice(s, lo, hi), p)
        <==> exists j :: lo <= j && j + |p| <= hi && OccursAt(s, p, j)
  {
    if Contains(Slice(s, lo, hi), p) {
      var i :| OccursAt(Slice(s, lo, hi), p, i);
      OccursInSlice(s, p, lo, hi, i);
    }
    if exists j :: lo <= j && j + |p| <= hi && OccursAt(s, p, j) {
      var j :| lo <= j && j + |p| <= hi && OccursAt(s, p, j);
      OccursInSlice(s, p, lo, hi, j - lo);
    }
  }

  lemma LowerSlice(s: string, lo: nat, hi: nat)
    ensures Lower(Slice(s, lo, hi)) == Slice(Lower(s), lo, hi)
  {
  }

  // ---------------------------------------------------------------------
  // Splitting and joining
  // ---------------------------------------------------------------------

  /** `s.split(sep)` for a one-character separator: the pieces between
      separators, so there is always at least one piece. */
  function Split(s: string, sep: char): (r: seq<string>)
    ensures |r| >= 1
    ensures forall i :: 0 <= i < |r| ==> sep !in r[i]
    decreases |s|
  {
    if |s| == 0 then [""]
    else
      var rest := Split(s[1..], sep);
      if s[0] == sep then [""] + rest
      else [[s[0]] + rest[0]] + rest[1..]
  }

  /** `sep.join(parts)`. */
  function Join(sep: string, parts: seq<string>): string
    decreases |parts|
  {
    if |parts| == 0 then ""
    else if |parts| == 1 then parts[0]
    else parts[0] + sep + Join(sep, parts[1..])
  }

  /** A join begins with its first part. */
  lemma JoinStartsWithFirst(sep: string, parts: seq<string>)
    requires |parts| >= 1
    ensures |parts[0]| <= |Join(sep, parts)|
    ensures Join(sep, parts)[..|parts[0]|] == parts[0]
  {
    if |parts| > 1 {
      assert Join(sep, parts) == parts[0] + (sep + Join(sep, parts[1..]));
    }
  }

  /** Joining the pieces of a split with the separator gives back the text. */
  lemma {:induction false} JoinOfSplit(s: string, sep: char)
    ensures Join([sep], Split(s, sep)) == s
    decreases |s|
  {
    if |s| > 0 {
      var rest := Split(s[1..], sep);
      JoinOfSplit(s[1..], sep);
      var r := Split(s, sep);
      if s[0] == sep {
        assert r == [""] + rest;
        assert r[1..] == rest;
      } else {
        assert r == [[s[0]] + rest[0]] + rest[1..];
        assert r[1..] == rest[1..];
        if |rest| > 1 {
          assert Join([sep], rest) == rest[0] + [sep] + Join([sep], rest[1..]);
        }
      }
    }
  }

  /** Joining two non-empty lists of parts is joining each and putting
      the separator between. */
  lemma {:induction false} JoinAppend(sep: string, a: seq<string>, b: seq<string>)
    requires |a| >= 1 && |b| >= 1
    ensures Join(sep, a + b) == Join(sep, a) + sep + Join(sep, b)
    decreases |a|
  {
    if |a| == 1 {
      assert (a + b)[1..] == b;
    } else {
      assert (a + b)[1..] == a[1..] + b;
      JoinAppend(sep, a[1..], b);
      var x, y := Join(sep, a[1..]), Join(sep, b);
      assert a[0] + sep + (x + sep + y) == (a[0] + sep + x) + sep + y;
    }
  }

  /** Splitting `a + t`, where `a` holds no separator, glues `a` to the first
      piece of `t`. */
  lemma {:induction false} SplitPrepend(a: string, t: string, sep: char)
    requires sep !in a
    ensures Split(a + t, sep) == [a + Split(t, sep)[0]] + Split(t, sep)[1..]
    decreases |a|
  {
    if |a| == 0 {
      assert a + t == t;
      assert a + Split(t, sep)[0] == Split(t, sep)[0];
      assert Split(t, sep) == [Split(t, sep)[0]] + Split(t, sep)[1..];
    } else {
      assert (a + t)[1..] == a[1..] + t;
      SplitPrepend(a[1..], t, sep);
      assert [a[0]] + (a[1..] + Split(t, sep)[0]) == a + Split(t, sep)[0];
    }
  }

  /** Splitting `a`, a separator, then `t`, where `a` holds no separator,
      gives `a` and then the pieces of `t`. */
  lemma SplitCons(a: string, sep: char, t: string)
    requires sep !in a
    ensures Split(a + [sep] + t, sep) == [a] + Split(t, sep)
  {
    SplitPrepend(a, [sep] + t, sep);
    assert ([sep] + t)[1..] == t;
    assert a + [sep] + t == a + ([sep] + t);
    assert a + "" == a;
  }

  /** Splitting a join of separator-free pieces gives back the pieces. */
  lemma {:induction false} SplitOfJoin(parts: seq<string>, sep: char)
    requires |parts| >= 1
    requires forall i :: 0 <= i < |parts| ==> sep !in parts[i]
    ensures Split(Join([sep], parts), sep) == parts
    decreases |parts|
  {
    if |parts| == 1 {
      SplitPrepend(parts[0], "", sep);
      assert parts[0] + "" == parts[0];
    } else {
      var tail := Join([sep], parts[1..]);
      SplitOfJoin(parts[1..], sep);
      assert ([sep] + tail)[1..] == tail;
      assert Split([sep] + tail, sep) == [""] + parts[1..];
      assert parts[0] + ([sep] + tail) == parts[0] + [sep] + tail;
      SplitPrepend(parts[0], [sep] + tail, sep);
      assert parts[0] + "" == parts[0];
    }
  }

  /** A text without the separator splits into itself alone. */
  lemma SplitWithoutSep(s: string, sep: char)
    requires sep !in s
    ensures Split(s, sep) == [s]
  {
    SplitOfJoin([s], sep);
  }

  /** A character that no part holds occurs in a join exactly once per
      occurrence in each of the `|parts| - 1` separators. */
  lemma {:induction false} JoinCount(sep: string, parts: seq<string>, c: char)
    requires |parts| >= 1
    requires forall i :: 0 <= i < |parts| ==> c !in parts[i]
    ensures multiset(Join(sep, parts))[c] == (|parts| - 1) * multiset(sep)[c]
    decreases |parts|
  {
    if |parts| > 1 {
      var tail := Join(sep, parts[1..]);
      var m := multiset(sep)[c];
      assert Join(sep, parts) == parts[0] + sep + tail;
      JoinCount(sep, parts[1..], c);
      CountOfConcat(parts[0], sep, tail, c);
      MulStep(|parts| - 1, m);
    }
  }

  lemma MulStep(k: int, m: int)
    ensures (k - 1) * m + m == k * m
  {
  }

  lemma CountOfConcat(a: string, b: string, t: string, c: char)
    requires c !in a
    ensures multiset(a + b + t)[c] == multiset(b)[c] + multiset(t)[c]
  {
    assert multiset(a + b + t) == multiset(a) + multiset(b) + multiset(t);
  }

  /** The first piece of a split is the text up to the first separator. */
  lemma {:induction false} SplitFirstPiece(s: string, sep: char)
    ensures |Split(s, sep)[0]| <= |s|
    ensures Split(s, sep)[0] == s[..|Split(s, sep)[0]|]
    ensures |Split(s, sep)[0]| < |s| ==> s[|Split(s, sep)[0]|] == sep
    decreases |s|
  {
    if |s| > 0 {
      SplitFirstPiece(s[1..], sep);
    }
  }

  /** Every piece of a split occurs in the text. */
  lemma {:induction false} SplitPieceOccurs(s: string, sep: char, i: int)
    requires 0 <= i < |Split(s, sep)|
    ensures exists a :: OccursAt(s, Split(s, sep)[i], a)
    decreases |s|
  {
    var piece := Split(s, sep)[i];
    if i == 0 {
      SplitFirstPiece(s, sep);
      assert OccursAt(s, piece, 0);
    } else {
      var rest := Split(s[1..], sep);
      var j := if s[0] == sep then i - 1 else i;
      assert piece == rest[j];
      SplitPieceOccurs(s[1..], sep, j);
      var a :| OccursAt(s[1..], piece, a);
      ShiftOccurrence(s, piece, a);
    }
  }

  /** An occurrence in the text after its first character is one in the
      text, a place later. */
  lemma ShiftOccurrence(s: string, p: string, a: int)
    requires |s| > 0 && OccursAt(s[1..], p, a)
    ensures OccursAt(s, p, a + 1)
  {
  }

  /** Lower-casing keeps occurrences. */
  lemma LowerOccurs(s: string, p: string, a: int)
    requires OccursAt(s, p, a)
    ensures OccursAt(Lower(s), Lower(p), a)
  {
  }

  /** A pattern found, in any case, in a piece of a split is found in the
      whole text. */
  lemma PieceMentionLowered(s: string, sep: char, i: int, p: string)
    requires 0 <= i < |Split(s, sep)| && Contains(Lower(Split(s, sep)[i]), p)
    ensures Contains(Lower(s), p)
  {
    var piece := Split(s, sep)[i];
    SplitPieceOccurs(s, sep, i);
    var a :| OccursAt(s, piece, a);
    LowerOccurs(s, piece, a);
    var k :| OccursAt(Lower(piece), p, k);
    OccursWithin(Lower(s), Lower(piece), p, a, k);
  }

  // ---------------------------------------------------------------------
  // Stripping
  // ---------------------------------------------------------------------

  /** Drops the longest prefix of characters that satisfy `drop`. */
  function TrimStart(s: string, drop: char -> bool): (r: string)
    ensures |r| <= |s| && r == s[|s| - |r|..]
    ensures forall i :: 0 <= i < |s| - |r| ==> drop(s[i])
    ensures |r| > 0 ==> !drop(r[0])
    decreases |s|
  {
    if |s| > 0 && drop(s[0]) then TrimStart(s[1..], drop) else s
  }

  /** Drops the longest suffix of characters that satisfy `drop`. */
  function TrimEnd(s: string, drop: char -> bool): (r: string)
    ensures |r| <= |s| && r == s[..|r|]
    ensures forall i :: |r| <= i < |s| ==> drop(s[i])
    ensures |r| > 0 ==> !drop(r[|r| - 1])
    decreases |s|
  {
    if |s| > 0 && drop(s[|s| - 1]) then TrimEnd(s[..|s| - 1], drop) else s
  }

  /** The line holds nothing but whitespace (Python: `not s.strip()`). */
  predicate IsBlank(s: string) {
    forall i :: 0 <= i < |s| ==> IsSpace(s[i])
  }

  /** `r` is `s` with `a` characters cut from the front and the rest of
      its length cut from the back, all of them whitespace. */
  predicate StrippedAt(s: string, r: string, a: nat) {
    && a + |r| <= |s| && r == s[a..a + |r|]
    && (forall i :: 0 <= i < a ==> IsSpace(s[i]))
    && (forall i :: a + |r| <= i < |s| ==> IsSpace(s[i]))
  }

  /** `s.strip()`: the text between the leading and the trailing
      whitespace, so only whitespace is removed, from the two ends. */
  function Strip(s: string): (r: string)
    ensures |r| <= |s|
    ensures |r| > 0 ==> !IsSpace(r[0]) && !IsSpace(r[|r| - 1])
    ensures r == "" <==> IsBlank(s)
    ensures |s| > 0 && !IsSpace(s[0]) ==> |r| > 0 && r[0] == s[0]
    ensures StrippedAt(s, r, LeadingSpaces(s))
  {
    var t := TrimStart(s, IsSpace);
    var r := TrimEnd(t, IsSpace);
    assert |t| > 0 ==> !IsSpace(t[0]);
    assert |s| > 0 && !IsSpace(s[0]) ==> t == s;
    StripShape(s);
    r
  }

  /** The two trims cut exactly the leading and the trailing whitespace. */
  lemma StripShape(s: string)
    ensures StrippedAt(s, TrimEnd(TrimStart(s, IsSpace), IsSpace), LeadingSpaces(s))
  {
    var t := TrimStart(s, IsSpace);
    var r := TrimEnd(t, IsSpace);
    var a := LeadingSpaces(s);
    CutShape(s, t, r, a);
  }

  /** Cutting whitespace from the front and then from the back leaves the
      slice in between. */
  lemma CutShape(s: string, t: string, r: string, a: nat)
    requires a <= |s| && t == s[a..] && |r| <= |t| && r == t[..|r|]
    requires forall i :: 0 <= i < a ==> IsSpace(s[i])
    requires forall i :: |r| <= i < |t| ==> IsSpace(t[i])
    ensures StrippedAt(s, r, a)
  {
    forall i | a + |r| <= i < |s| ensures IsSpace(s[i]) {
      assert s[i] == t[i - a];
    }
  }

  /** A text that neither starts nor ends with whitespace is its own
      strip. */
  lemma StripVisible(s: string)
    requires |s| > 0 && !IsSpace(s[0]) && !IsSpace(s[|s| - 1])
    ensures Strip(s) == s
  {
    var r := Strip(s);
    assert LeadingSpaces(s) == 0;
    assert |r| == |s|;
  }

  /** The number of whitespace characters `s` starts with: the length of
      what `lstrip()` removes. */
  function LeadingSpaces(s: string): (n: nat)
    ensures n <= |s|
    ensures forall i :: 0 <= i < n ==> IsSpace(s[i])
    ensures n < |s| ==> !IsSpace(s[n])
  {
    |s| - |TrimStart(s, IsSpace)|
  }

  /** When the first `k` characters come from `chars` and the next does
      not, `lstrip(chars)` removes exactly those `k`. */
  lemma {:induction false} LStripUpTo(s: string, chars: set<char>, k: nat)
    requires k < |s| && s[k] !in chars
    requires forall i :: 0 <= i < k ==> s[i] in chars
    ensures LStripChars(s, chars) == s[k..]
    decreases k
  {
    if k > 0 {
      LStripUpTo(s[1..], chars, k - 1);
      assert s[1..][k - 1..] == s[k..];
    }
  }

  /** `s.lstrip(chars)`: the longest prefix of characters from `chars` is
      removed, and nothing else. */
  function LStripChars(s: string, chars: set<char>): (r: string)
    ensures |r| <= |s| && r == s[|s| - |r|..]
    ensures forall i :: 0 <= i < |s| - |r| ==> s[i] in chars
    ensures |r| > 0 ==> r[0] !in chars
  {
    TrimStart(s, c => c in chars)
  }

  /** `xs` can be obtained from `ys` by deleting elements: the elements of
      `xs` appear in `ys`, in the same order. */
  ghost predicate SubseqOf<T>(xs: seq<T>, ys: seq<T>)
    decreases |ys|
  {
    || |xs| == 0
    || (&& |ys| > 0
        && ((xs[0] == ys[0] && SubseqOf(xs[1..], ys[1..])) || SubseqOf(xs, ys[1..])))
  }

  /** `s.startswith(c)` for a one-character prefix. */
  predicate StartsWith(s: string, c: char) {
    |s| > 0 && s[0] == c
  }
}
