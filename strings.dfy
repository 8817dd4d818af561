/**
 * String helpers shared by the backend model: the JavaScript `trim`,
 * `toLowerCase`/`toUpperCase`, `startsWith`/`endsWith`/`includes` and
 * `split`, the default ordering that `<` and `Array.prototype.sort` use on
 * strings, and the sorted listing of an object's keys.
 */
module Strings {

  datatype Option<+T> = None | Some(value: T)

  // ---------------------------------------------------------------------
  // Characters
  // ---------------------------------------------------------------------

  /** The characters `String.prototype.trim` removes: WhiteSpace and LineTerminator. */
  predicate IsSpace(c: char) {
    c == '\t' || c == '\n' || c == '\U{000B}' || c == '\U{000C}' || c == '\r' || c == ' '
    || c == '\U{00A0}' || c == '\U{1680}' || ('\U{2000}' <= c <= '\U{200A}')
    || c == '\U{2028}' || c == '\U{2029}' || c == '\U{202F}' || c == '\U{205F}'
    || c == '\U{3000}' || c == '\U{FEFF}'
  }

  predicate IsDigit(c: char) { '0' <= c <= '9' }
  predicate IsUpper(c: char) { 'A' <= c <= 'Z' }
  predicate IsLower(c: char) { 'a' <= c <= 'z' }
  /** The class `[A-Za-z0-9]`. */
  predicate IsAlnum(c: char) { IsDigit(c) || IsUpper(c) || IsLower(c) }

  function LowerChar(c: char): char {
    if IsUpper(c) then (c as int - 'A' as int + 'a' as int) as char else c
  }

  function UpperChar(c: char): char {
    if IsLower(c) then (c as int - 'a' as int + 'A' as int) as char else c
  }

  // ---------------------------------------------------------------------
  // Whole strings: classes, case, trimming
  // ---------------------------------------------------------------------

  /** `s` matches `^[A-Za-z0-9]+$`. */
  predicate IsAlnumWord(s: string) { |s| > 0 && forall i :: 0 <= i < |s| ==> IsAlnum(s[i]) }

  /** `s` matches `^[a-z0-9]+$`. */
  predicate IsLowerAlnumWord(s: string) {
    |s| > 0 && forall i :: 0 <= i < |s| ==> IsDigit(s[i]) || IsLower(s[i])
  }

  /** `s` contains no upper-case ASCII letter. */
  predicate NoUpper(s: string) { forall i :: 0 <= i < |s| ==> !IsUpper(s[i]) }

  /** `s` contains no lower-case ASCII letter. */
  predicate NoLower(s: string) { forall i :: 0 <= i < |s| ==> !IsLower(s[i]) }

  function ToLower(s: string): (r: string)
    ensures |r| == |s|
  {
    seq(|s|, i requires 0 <= i < |s| => LowerChar(s[i]))
  }

  function ToUpper(s: string): (r: string)
    ensures |r| == |s|
  {
    seq(|s|, i requires 0 <= i < |s| => UpperChar(s[i]))
  }

  lemma ToLowerNoUpper(s: string)
    ensures NoUpper(ToLower(s))
  {
  }

  lemma ToUpperNoLower(s: string)
    ensures NoLower(ToUpper(s))
  {
  }

  lemma ToLowerAppend(a: string, b: string)
    ensures ToLower(a + b) == ToLower(a) + ToLower(b)
  {
    assert forall i :: 0 <= i < |a + b| ==> ToLower(a + b)[i] == (ToLower(a) + ToLower(b))[i];
  }

  lemma ToUpperAppend(a: string, b: string)
    ensures ToUpper(a + b) == ToUpper(a) + ToUpper(b)
  {
    assert forall i :: 0 <= i < |a + b| ==> ToUpper(a + b)[i] == (ToUpper(a) + ToUpper(b))[i];
  }

  /** Lower-casing around a separator that is not an upper-case letter keeps the separator. */
  lemma ToLowerAround(a: string, c: char, b: string)
    requires !IsUpper(c)
    ensures ToLower(a + [c] + b) == ToLower(a) + [c] + ToLower(b)
  {
    var s := a + [c] + b;
    assert forall i :: 0 <= i < |s| ==> ToLower(s)[i] == (ToLower(a) + [c] + ToLower(b))[i];
  }

  /** Lower-casing a string that has no upper-case letter changes nothing. */
  lemma ToLowerOfNoUpper(s: string)
    requires NoUpper(s)
    ensures ToLower(s) == s
  {
    assert forall i :: 0 <= i < |s| ==> ToLower(s)[i] == s[i];
  }

  /** Upper-casing a string that has no lower-case letter changes nothing. */
  lemma ToUpperOfNoLower(s: string)
    requires NoLower(s)
    ensures ToUpper(s) == s
  {
    assert forall i :: 0 <= i < |s| ==> ToUpper(s)[i] == s[i];
  }

  /** Lower-casing the upper-cased form gives the lower-cased form. */
  lemma ToLowerOfToUpper(s: string)
    ensures ToLower(ToUpper(s)) == ToLower(s)
  {
    assert forall i :: 0 <= i < |s| ==> ToLower(ToUpper(s))[i] == ToLower(s)[i];
  }

  function TrimStart(s: string): (r: string)
    ensures |r| <= |s| && r == s[|s| - |r|..]
    ensures r == [] || !IsSpace(r[0])
    ensures forall i :: 0 <= i < |s| - |r| ==> IsSpace(s[i])
  {
    if s != [] && IsSpace(s[0]) then TrimStart(s[1..]) else s
  }

  function TrimEnd(s: string): (r: string)
    ensures |r| <= |s| && r == s[..|r|]
    ensures r == [] || !IsSpace(r[|r| - 1])
    ensures forall i :: |r| <= i < |s| ==> IsSpace(s[i])
  {
    if s != [] && IsSpace(s[|s| - 1]) then TrimEnd(s[..|s| - 1]) else s
  }

  /** `String.prototype.trim`: the longest slice of `s` that neither starts nor ends with white space. */
  function Trim(s: string): (r: string)
    ensures var lo := |s| - |TrimStart(s)|; lo + |r| <= |s| && r == s[lo..lo + |r|]
    ensures r == [] || (!IsSpace(r[0]) && !IsSpace(r[|r| - 1]))
  {
    var t := TrimStart(s);
    var r := TrimEnd(t);
    SliceOfSuffix(s, |s| - |t|, |r|);
    r
  }

  lemma SliceOfSuffix(s: string, lo: nat, n: nat)
    requires lo + n <= |s|
    ensures s[lo..][..n] == s[lo..lo + n]
  {
  }

  /** Lower-casing never turns a white-space character into another class, nor the reverse. */
  lemma LowerCharSpace(c: char)
    ensures IsSpace(LowerChar(c)) <==> IsSpace(c)
  {
  }

  lemma {:induction false} TrimStartLower(s: string)
    ensures TrimStart(ToLower(s)) == ToLower(TrimStart(s))
  {
    if s != [] {
      LowerCharSpace(s[0]);
      assert ToLower(s)[1..] == ToLower(s[1..]);
      TrimStartLower(s[1..]);
    }
  }

  lemma {:induction false} TrimEndLower(s: string)
    ensures TrimEnd(ToLower(s)) == ToLower(TrimEnd(s))
  {
    if s != [] {
      LowerCharSpace(s[|s| - 1]);
      assert ToLower(s)[..|s| - 1] == ToLower(s[..|s| - 1]);
      TrimEndLower(s[..|s| - 1]);
    }
  }

  /** Trimming and lower-casing commute. */
  lemma TrimLower(s: string)
    ensures Trim(ToLower(s)) == ToLower(Trim(s))
  {
    TrimStartLower(s);
    TrimEndLower(TrimStart(s));
  }

  /** Upper-casing the lower-cased form gives the upper-cased form. */
  lemma ToUpperOfToLower(s: string)
    ensures ToUpper(ToLower(s)) == ToUpper(s)
  {
    assert forall i :: 0 <= i < |s| ==> ToUpper(ToLower(s))[i] == ToUpper(s)[i];
  }

  /** Trimming is idempotent. */
  lemma TrimTwice(s: string)
    ensures Trim(Trim(s)) == Trim(s)
  {
    TrimOfTrimmed(Trim(s));
  }

  /** A lower-case alphanumeric word is its own trim and its own lower-case form. */
  lemma LowerAlnumWordFixed(w: string)
    requires IsLowerAlnumWord(w)
    ensures Trim(w) == w && ToLower(w) == w
  {
    LowerAlnumNoUpper(w);
    ToLowerOfNoUpper(w);
    assert IsDigit(w[0]) || IsLower(w[0]);
    assert IsDigit(w[|w| - 1]) || IsLower(w[|w| - 1]);
    TrimOfTrimmed(w);
  }

  lemma LowerAlnumNoUpper(w: string)
    requires IsLowerAlnumWord(w)
    ensures NoUpper(w)
  {
    forall i | 0 <= i < |w| ensures !IsUpper(w[i]) {
      assert IsDigit(w[i]) || IsLower(w[i]);
    }
  }

  lemma TrimOfTrimmed(s: string)
    requires s == [] || (!IsSpace(s[0]) && !IsSpace(s[|s| - 1]))
    ensures Trim(s) == s
  {
  }

  /** A string that starts and ends with a letter or digit is its own trim. */
  lemma TrimOfAlnumEnds(s: string)
    requires s != [] && IsAlnum(s[0]) && IsAlnum(s[|s| - 1])
    ensures Trim(s) == s
  {
    assert !IsSpace(s[0]) && !IsSpace(s[|s| - 1]);
    TrimOfTrimmed(s);
  }

  // ---------------------------------------------------------------------
  // Prefixes, suffixes, substrings
  // ---------------------------------------------------------------------

  predicate StartsWith(s: string, p: string) { |p| <= |s| && s[..|p|] == p }

  predicate EndsWith(s: string, p: string) { |p| <= |s| && s[|s| - |p|..] == p }

  lemma EndsWithAppend(a: string, b: string)
    ensures EndsWith(a + b, b)
  {
    assert (a + b)[|a|..] == b;
  }

  lemma NoLowerAppend(a: string, b: string)
    requires NoLower(a) && NoLower(b)
    ensures NoLower(a + b)
  {
    forall i | 0 <= i < |a + b|
      ensures !IsLower((a + b)[i])
    {
      if i < |a| { assert (a + b)[i] == a[i]; } else { assert (a + b)[i] == b[i - |a|]; }
    }
  }

  lemma StartsWithTrans(s: string, p: string, q: string)
    requires StartsWith(s, p) && StartsWith(p, q)
    ensures StartsWith(s, q)
  {
    assert s[..|q|] == s[..|p|][..|q|];
  }

  /** `String.prototype.includes`: `q` occurs in `s` at some position. */
  predicate Contains(s: string, q: string) {
    StartsWith(s, q) || (s != [] && Contains(s[1..], q))
  }

  /** The index of the first occurrence of `c` in `s`. */
  function IndexOf(s: string, c: char): (r: Option<nat>)
    ensures r.None? <==> c !in s
    ensures r.Some? ==> r.value < |s| && s[r.value] == c && c !in s[..r.value]
  {
    if s == [] then None
    else if s[0] == c then Some(0)
    else
      match IndexOf(s[1..], c)
      case None => None
      case Some(i) => assert s[1..][..i] == s[1..i + 1]; Some(i + 1)
  }

  /** The first occurrence of `c` is at or before any position holding `c`. */
  lemma {:induction false} FirstOccurrenceBound(s: string, c: char, j: nat)
    requires j < |s| && s[j] == c
    ensures IndexOf(s, c).Some? && IndexOf(s, c).value <= j
  {
    if s[0] != c {
      assert j > 0 && s[1..][j - 1] == c;
      FirstOccurrenceBound(s[1..], c, j - 1);
    }
  }

  /** In `a + [c] + b` with no `c` in `a`, the first `c` is the one after `a`. */
  lemma IndexOfAfterPrefix(a: string, c: char, b: string)
    requires c !in a
    ensures IndexOf(a + [c] + b, c) == Some(|a|)
  {
    var s := a + [c] + b;
    assert s[|a|] == c;
    FirstOccurrenceBound(s, c, |a|);
    assert forall j :: 0 <= j < |a| ==> s[j] == a[j] && s[j] != c;
  }

  // ---------------------------------------------------------------------
  // Splitting and joining
  // ---------------------------------------------------------------------

  /**
   * `s.split(sep)` where `sep` is a single character or a character class:
   * one more piece than there are separators, empty pieces kept.
   */
  function SplitOn(s: string, seps: set<char>): (parts: seq<string>)
    ensures |parts| >= 1
    ensures forall i, j :: 0 <= i < |parts| && 0 <= j < |parts[i]| ==> parts[i][j] !in seps
  {
    if s == [] then [""]
    else
      var rest := SplitOn(s[1..], seps);
      if s[0] in seps then [""] + rest
      else [[s[0]] + rest[0]] + rest[1..]
  }

  /** `parts.join(sep)`. */
  function Join(parts: seq<string>, sep: char): string {
    if parts == [] then ""
    else if |parts| == 1 then parts[0]
    else parts[0] + [sep] + Join(parts[1..], sep)
  }

  /** Splitting a single character off the front of a split. */
  lemma SplitOnCons(c: char, s: string, seps: set<char>)
    requires c !in seps
    ensures SplitOn([c] + s, seps) == [[c] + SplitOn(s, seps)[0]] + SplitOn(s, seps)[1..]
  {
    assert ([c] + s)[1..] == s;
  }

  lemma HeadTailAppend<T>(a: seq<T>, b: seq<T>)
    requires a != []
    ensures [a[0]] + (a[1..] + b) == a + b
  {
    assert a == [a[0]] + a[1..];
  }

  lemma SplitOnPiece(p: string, rest: string, seps: set<char>)
    requires forall j :: 0 <= j < |p| ==> p[j] !in seps
    ensures SplitOn(p + rest, seps) == [p + SplitOn(rest, seps)[0]] + SplitOn(rest, seps)[1..]
    decreases |p|
  {
    if p == [] {
      assert p + rest == rest;
      var parts := SplitOn(rest, seps);
      assert parts == [parts[0]] + parts[1..];
      assert p + parts[0] == parts[0];
    } else {
      HeadTailAppend(p, rest);
      SplitOnPiece(p[1..], rest, seps);
      SplitOnCons(p[0], p[1..] + rest, seps);
      HeadTailAppend(p, SplitOn(rest, seps)[0]);
    }
  }

  /** Splitting a join on its separator gives the pieces back when no piece holds a separator. */
  lemma {:induction false} SplitOnJoin(parts: seq<string>, sep: char, seps: set<char>)
    requires |parts| >= 1 && sep in seps
    requires forall i, j :: 0 <= i < |parts| && 0 <= j < |parts[i]| ==> parts[i][j] !in seps
    ensures SplitOn(Join(parts, sep), seps) == parts
  {
    if |parts| == 1 {
      SplitOnPiece(parts[0], "", seps);
      assert parts[0] + "" == parts[0];
    } else {
      var tail := [sep] + Join(parts[1..], sep);
      assert Join(parts, sep) == parts[0] + tail;
      SplitOnPiece(parts[0], tail, seps);
      assert tail[1..] == Join(parts[1..], sep);
      SplitOnJoin(parts[1..], sep, seps);
      assert SplitOn(tail, seps) == [""] + parts[1..];
      assert parts[0] + "" == parts[0];
    }
  }

  // ---------------------------------------------------------------------
  // Ordering: the code-unit order that `<` and the default sort use
  // ---------------------------------------------------------------------

  /** `a < b` on JavaScript strings: lexicographic on characters, a proper prefix first. */
  predicate Less(a: string, b: string) {
    if a == [] then b != []
    else if b == [] then false
    else if a[0] != b[0] then a[0] < b[0]
    else Less(a[1..], b[1..])
  }

  lemma {:induction false} LessIrreflexive(a: string)
    ensures !Less(a, a)
  {
    if a != [] { LessIrreflexive(a[1..]); }
  }

  lemma {:induction false} LessTransitive(a: string, b: string, c: string)
    requires Less(a, b) && Less(b, c)
    ensures Less(a, c)
  {
    if a != [] && a[0] == b[0] && b[0] == c[0] {
      LessTransitive(a[1..], b[1..], c[1..]);
    }
  }

  lemma {:induction false} LessTotal(a: string, b: string)
    ensures Less(a, b) || a == b || Less(b, a)
  {
    if a != [] && b != [] && a[0] == b[0] {
      LessTotal(a[1..], b[1..]);
      if a[1..] == b[1..] {
        assert a == [a[0]] + a[1..] && b == [b[0]] + b[1..];
      }
    }
  }

  lemma LessAsymmetric(a: string, b: string)
    requires Less(a, b)
    ensures !Less(b, a)
  {
    if Less(b, a) {
      LessTransitive(a, b, a);
      LessIrreflexive(a);
    }
  }

  /** `a <= b < c` gives `a < c`. */
  lemma AtMostThenLess(a: string, b: string, c: string)
    requires !Less(b, a) && Less(b, c)
    ensures Less(a, c)
  {
    LessTotal(a, b);
    if Less(a, b) { LessTransitive(a, b, c); }
  }

  /** A string is never below a prefix of itself. */
  lemma {:induction false} PrefixNotLess(k: string, q: string)
    requires StartsWith(k, q)
    ensures !Less(k, q)
  {
    if q != [] {
      assert k[1..][..|q| - 1] == q[1..];
      PrefixNotLess(k[1..], q[1..]);
    }
  }

  /**
   * The keys that start with `q` sit together in sorted order: anything
   * between `q` and a key starting with `q` also starts with `q`.
   */
  lemma {:induction false} PrefixBetween(q: string, x: string, y: string)
    requires !Less(x, q) && !Less(y, x) && StartsWith(y, q)
    ensures StartsWith(x, q)
  {
    if q != [] {
      assert x != [];
      assert y[0] == q[0];
      assert x[0] == q[0];
      assert y[1..][..|q| - 1] == q[1..];
      PrefixBetween(q[1..], x[1..], y[1..]);
      assert x[..|q|] == [x[0]] + x[1..][..|q| - 1];
    }
  }

  /** Ascending, duplicates allowed: what `Array.prototype.sort()` produces on strings. */
  ghost predicate Sorted(s: seq<string>) {
    forall i, j :: 0 <= i < j < |s| ==> !Less(s[j], s[i])
  }

  /** Strictly ascending, hence free of duplicates. */
  ghost predicate StrictlySorted(s: seq<string>) {
    forall i, j :: 0 <= i < j < |s| ==> Less(s[i], s[j])
  }

  /** No element occurs twice. */
  ghost predicate NoDuplicates(s: seq<string>) {
    forall x :: multiset(s)[x] <= 1
  }

  function Insert(x: string, s: seq<string>): (r: seq<string>)
    requires Sorted(s)
    ensures Sorted(r) && multiset(r) == multiset(s) + multiset{x}
  {
    if s == [] then [x]
    else if !Less(s[0], x) then
      NoneBelowAfterHead(s, x);
      [x] + s
    else
      var t := Insert(x, s[1..]);
      assert s == [s[0]] + s[1..];
      InsertedNotBelowHead(s, x, t);
      [s[0]] + t
  }

  /** In a sorted list whose head is not below `x`, nothing is below `x`. */
  lemma NoneBelowAfterHead(s: seq<string>, x: string)
    requires Sorted(s) && s != [] && !Less(s[0], x)
    ensures forall j :: 0 <= j < |s| ==> !Less(s[j], x)
  {
    forall j | 0 < j < |s| ensures !Less(s[j], x) {
      if Less(s[j], x) {
        LessTotal(s[0], s[j]);
        if Less(s[0], s[j]) { LessTransitive(s[0], s[j], x); }
      }
    }
  }

  /** Inserting `x` above the head into the tail of a sorted list leaves nothing below the head. */
  lemma InsertedNotBelowHead(s: seq<string>, x: string, t: seq<string>)
    requires Sorted(s) && s != [] && Less(s[0], x)
    requires multiset(t) == multiset(s[1..]) + multiset{x}
    ensures forall j :: 0 <= j < |t| ==> !Less(t[j], s[0])
  {
    forall j | 0 <= j < |t| ensures !Less(t[j], s[0]) {
      assert t[j] in multiset(t);
      if t[j] == x {
        LessAsymmetric(s[0], x);
      } else {
        assert t[j] in multiset(s[1..]);
        var k :| 0 <= k < |s[1..]| && s[1..][k] == t[j];
        assert s[k + 1] == t[j];
      }
    }
  }

  /** The default `Array.prototype.sort()` on strings, as insertion sort. */
  function Sort(s: seq<string>): (r: seq<string>)
    ensures Sorted(r) && multiset(r) == multiset(s) && |r| == |s|
  {
    if s == [] then []
    else
      assert s == [s[0]] + s[1..];
      Insert(s[0], Sort(s[1..]))
  }

  /** Every finite non-empty set of strings has a least element. */
  lemma {:induction false} LeastExists(s: set<string>)
    requires s != {}
    ensures exists m :: m in s && forall x :: x in s ==> !Less(x, m)
    decreases s
  {
    var y :| y in s;
    if s == {y} {
      LessIrreflexive(y);
    } else {
      LeastExists(s - {y});
      var m :| m in s - {y} && forall x :: x in s - {y} ==> !Less(x, m);
      if Less(y, m) {
        forall x | x in s ensures !Less(x, y) {
          if x != y && Less(x, y) { LessTransitive(x, y, m); }
          LessIrreflexive(y);
        }
      } else {
        assert forall x :: x in s ==> !Less(x, m);
      }
    }
  }

  /** `Object.keys(o).sort()`: the keys of a map in strictly ascending order. */
  function SortedKeys(s: set<string>): (ks: seq<string>)
    ensures StrictlySorted(ks) && |ks| == |s|
    ensures forall k :: k in ks <==> k in s
    decreases s
  {
    if s == {} then []
    else
      LeastExists(s);
      LessDecides(s);
      var m :| m in s && forall x :: x in s ==> !Less(x, m);
      var rest := SortedKeys(s - {m});
      LeastBelowRest(s, m, rest);
      [m] + rest
  }

  /** Two members of a set that are not below one another are equal. */
  lemma LessDecides(s: set<string>)
    ensures forall a, b :: a in s && b in s && !Less(a, b) && !Less(b, a) ==> a == b
  {
    forall a, b | a in s && b in s && !Less(a, b) && !Less(b, a) ensures a == b {
      LessTotal(a, b);
    }
  }

  lemma LeastBelowRest(s: set<string>, m: string, rest: seq<string>)
    requires m in s && forall x :: x in s ==> !Less(x, m)
    requires forall k :: k in rest <==> k in s - {m}
    ensures forall j :: 0 <= j < |rest| ==> Less(m, rest[j])
  {
    forall j | 0 <= j < |rest| ensures Less(m, rest[j]) {
      assert rest[j] in s - {m};
      LessTotal(m, rest[j]);
    }
  }

  /** The first `n` elements, or all of them: `s.slice(0, n)` for `n >= 0`. */
  function Take<T>(s: seq<T>, n: nat): (r: seq<T>)
    ensures |r| <= n && |r| <= |s| && r == s[..|r|]
    ensures |r| == n || r == s
  {
    if n <= |s| then s[..n] else s
  }

  /** `.filter(Boolean)` on strings: the non-empty ones, in order. */
  function NonEmpty(xs: seq<string>): (r: seq<string>)
    ensures |r| <= |xs|
  {
    if xs == [] then [] else (if xs[0] != "" then [xs[0]] else []) + NonEmpty(xs[1..])
  }

  lemma {:induction false} NonEmptyAppend(a: seq<string>, b: seq<string>)
    ensures NonEmpty(a + b) == NonEmpty(a) + NonEmpty(b)
  {
    if a == [] {
      assert a + b == b;
    } else {
      assert (a + b)[1..] == a[1..] + b;
      NonEmptyAppend(a[1..], b);
    }
  }

  lemma {:induction false} NonEmptyMembers(xs: seq<string>)
    ensures forall x :: x in NonEmpty(xs) <==> x in xs && x != ""
  {
    if xs != [] {
      NonEmptyMembers(xs[1..]);
      assert xs == [xs[0]] + xs[1..];
    }
  }

  lemma {:induction false} NonEmptyOfNonEmpty(xs: seq<string>)
    requires forall x :: x in xs ==> x != ""
    ensures NonEmpty(xs) == xs
  {
    if xs != [] {
      assert xs[0] in xs;
      assert forall x :: x in xs[1..] ==> x in xs;
      NonEmptyOfNonEmpty(xs[1..]);
    }
  }
}
