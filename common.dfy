/** Helpers shared by every module of the model: an Option type, searches and
    filters over ordered collections (a MongoDB collection is modelled as the
    sequence of its documents in natural order), JavaScript's string
    primitives (`split`, `trim`, `toLowerCase`, `startsWith`), the decimal
    rendering of a non-negative integer and `Math.ceil` of a quotient. */
module Common {

  datatype Option<+T> = None | Some(value: T)

  // ---------------------------------------------------------------------
  // Ordered collections

  /** Index of the first element satisfying `p`: what `findOne` returns. */
  function FindFirst<T>(s: seq<T>, p: T -> bool): (r: Option<nat>)
    ensures r.Some? ==> r.value < |s| && p(s[r.value])
    ensures r.Some? ==> forall j :: 0 <= j < r.value ==> !p(s[j])
    ensures r.None? ==> forall j :: 0 <= j < |s| ==> !p(s[j])
  {
    if |s| == 0 then None
    else if p(s[0]) then Some(0)
    else match FindFirst(s[1..], p)
      case None => None
      case Some(k) => Some(k + 1)
  }

  /** The elements satisfying `p`, in order: what `deleteMany` leaves behind
      when given the negation of `p` as its filter. */
  function Filter<T>(s: seq<T>, p: T -> bool): (r: seq<T>)
    ensures |r| <= |s|
    ensures forall i :: 0 <= i < |r| ==> p(r[i])
  {
    if |s| == 0 then []
    else if p(s[0]) then [s[0]] + Filter(s[1..], p)
    else Filter(s[1..], p)
  }

  /** The filter keeps exactly the elements of `s` that satisfy `p`. */
  lemma {:induction false} FilterMembers<T>(s: seq<T>, p: T -> bool)
    ensures forall i :: 0 <= i < |Filter(s, p)| ==> Filter(s, p)[i] in s
    ensures forall i :: 0 <= i < |s| && p(s[i]) ==> s[i] in Filter(s, p)
  {
    if |s| > 0 {
      FilterMembers(s[1..], p);
      var r := Filter(s, p);
      forall i | 0 <= i < |r| ensures r[i] in s {
        if !p(s[0]) || i > 0 {
          var k := if p(s[0]) then i - 1 else i;
          assert r[i] == Filter(s[1..], p)[k];
          assert r[i] in s[1..];
        }
      }
      forall i | 0 <= i < |s| && p(s[i]) ensures s[i] in r {
        if i > 0 {
          assert s[i] == s[1..][i - 1];
        }
      }
    }
  }

  /** The collection without the document at position `i`: `deleteOne`. */
  function RemoveAt<T>(s: seq<T>, i: nat): (r: seq<T>)
    requires i < |s|
    ensures |r| == |s| - 1
    ensures forall j :: 0 <= j < i ==> r[j] == s[j]
    ensures forall j :: i <= j < |r| ==> r[j] == s[j + 1]
  {
    if i == 0 then s[1..] else [s[0]] + RemoveAt(s[1..], i - 1)
  }

  /** `deleteOne(filter)`: the first document matching the filter, if any,
      is removed and the others keep their order. */
  function DeleteFirst<T>(s: seq<T>, p: T -> bool): (r: seq<T>)
    ensures FindFirst(s, p).None? ==> r == s
    ensures FindFirst(s, p).Some? ==> r == RemoveAt(s, FindFirst(s, p).value)
    ensures FindFirst(s, p).Some? ==> |r| == |s| - 1 && |Filter(r, p)| == |Filter(s, p)| - 1
  {
    match FindFirst(s, p)
    case None => s
    case Some(i) => FilterRemoveAt(s, i, p); RemoveAt(s, i)
  }

  lemma {:induction false} FilterConcat<T>(a: seq<T>, b: seq<T>, p: T -> bool)
    ensures Filter(a + b, p) == Filter(a, p) + Filter(b, p)
  {
    if |a| > 0 {
      assert (a + b)[1..] == a[1..] + b;
      FilterConcat(a[1..], b, p);
    } else {
      assert a + b == b;
    }
  }

  /** Filtering an appended sequence. */
  lemma FilterAppend<T>(s: seq<T>, x: T, p: T -> bool)
    ensures Filter(s + [x], p) == Filter(s, p) + (if p(x) then [x] else [])
  {
    FilterConcat(s, [x], p);
    assert [x][1..] == [];
  }

  /** Filtering splits around any position. */
  lemma {:induction false} FilterAround<T>(s: seq<T>, i: nat, p: T -> bool)
    requires i < |s|
    ensures Filter(s, p) == Filter(s[..i], p) + (if p(s[i]) then [s[i]] else []) + Filter(s[i + 1..], p)
  {
    var a, c := s[..i], s[i + 1..];
    var b := [s[i]] + c;
    assert s == a + b;
    FilterConcat(a, b, p);
    FilterHead(b, p);
    assert b[1..] == c;
    var mid := if p(s[i]) then [s[i]] else [];
    assert Filter(b, p) == mid + Filter(c, p);
    assert Filter(a, p) + (mid + Filter(c, p)) == Filter(a, p) + mid + Filter(c, p);
  }

  lemma FilterHead<T>(s: seq<T>, p: T -> bool)
    requires |s| > 0
    ensures Filter(s, p) == (if p(s[0]) then [s[0]] else []) + Filter(s[1..], p)
  {
  }

  /** Removing an element the filter rejects leaves the filtered view alone;
      removing one it keeps shortens that view by one. */
  lemma FilterRemoveAt<T>(s: seq<T>, i: nat, p: T -> bool)
    requires i < |s|
    ensures !p(s[i]) ==> Filter(RemoveAt(s, i), p) == Filter(s, p)
    ensures p(s[i]) ==> |Filter(RemoveAt(s, i), p)| == |Filter(s, p)| - 1
  {
    FilterAround(s, i, p);
    FilterConcat(s[..i], s[i + 1..], p);
  }

  /** A filter that keeps nothing yields the empty sequence. */
  lemma {:induction false} FilterNone<T>(s: seq<T>, p: T -> bool)
    requires forall j :: 0 <= j < |s| ==> !p(s[j])
    ensures Filter(s, p) == []
  {
    if |s| > 0 {
      FilterNone(s[1..], p);
    }
  }

  /** Filtering by `p` first does not change the result of filtering by a
      stronger `q`. */
  lemma {:induction false} FilterOfFilter<T>(s: seq<T>, p: T -> bool, q: T -> bool)
    requires forall j :: 0 <= j < |s| && q(s[j]) ==> p(s[j])
    ensures Filter(Filter(s, p), q) == Filter(s, q)
  {
    if |s| > 0 {
      FilterOfFilter(s[1..], p, q);
      if p(s[0]) {
        assert ([s[0]] + Filter(s[1..], p))[1..] == Filter(s[1..], p);
      }
    }
  }

  /** Filtering by `p` first never adds elements that `q` keeps. */
  lemma {:induction false} FilterOfFilterShorter<T>(s: seq<T>, p: T -> bool, q: T -> bool)
    ensures |Filter(Filter(s, p), q)| <= |Filter(s, q)|
  {
    if |s| > 0 {
      FilterOfFilterShorter(s[1..], p, q);
      if p(s[0]) {
        assert ([s[0]] + Filter(s[1..], p))[1..] == Filter(s[1..], p);
      }
    }
  }

  /** Under a unique key, at most one element carries a given key. */
  lemma {:induction false} DistinctKeysAtMostOne<T, K>(s: seq<T>, key: T -> K, k: K, p: T -> bool)
    requires KeysDistinct(s, key)
    requires forall j :: 0 <= j < |s| ==> (p(s[j]) <==> key(s[j]) == k)
    ensures |Filter(s, p)| <= 1
  {
    if |s| > 0 {
      assert KeysDistinct(s[1..], key) by {
        forall i, j | 0 <= i < j < |s[1..]| ensures key(s[1..][i]) != key(s[1..][j]) {
          assert s[1..][i] == s[i + 1] && s[1..][j] == s[j + 1];
        }
      }
      if p(s[0]) {
        forall j | 0 <= j < |s[1..]| ensures !p(s[1..][j]) {
          assert s[1..][j] == s[j + 1];
        }
        FilterNone(s[1..], p);
      } else {
        DistinctKeysAtMostOne(s[1..], key, k, p);
      }
    }
  }

  /** When at most one element matches, `deleteOne` leaves none that match. */
  lemma DeleteFirstLeavesNone<T>(s: seq<T>, p: T -> bool)
    requires |Filter(s, p)| <= 1
    ensures Filter(DeleteFirst(s, p), p) == []
  {
    match FindFirst(s, p)
    case None => FilterNone(s, p);
    case Some(i) => FilterRemoveAt(s, i, p);
  }

  /** `deleteOne` does not disturb the elements a disjoint filter keeps. */
  lemma DeleteFirstKeepsOthers<T>(s: seq<T>, p: T -> bool, q: T -> bool)
    requires forall j :: 0 <= j < |s| && p(s[j]) ==> !q(s[j])
    ensures Filter(DeleteFirst(s, p), q) == Filter(s, q)
  {
    match FindFirst(s, p)
    case None =>
    case Some(i) => FilterRemoveAt(s, i, q);
  }

  /** Replacing the only match: after `deleteOne` and appending a matching
      `x`, exactly `x` matches. */
  lemma ReplaceOnlyMatch<T>(s: seq<T>, p: T -> bool, x: T)
    requires |Filter(s, p)| <= 1 && p(x)
    ensures Filter(DeleteFirst(s, p) + [x], p) == [x]
  {
    DeleteFirstLeavesNone(s, p);
    FilterAppend(DeleteFirst(s, p), x, p);
  }

  /** A filter that rejects the deleted and the appended element sees no
      change. */
  lemma ReplaceKeepsOthers<T>(s: seq<T>, p: T -> bool, x: T, q: T -> bool)
    requires forall j :: 0 <= j < |s| && p(s[j]) ==> !q(s[j])
    requires !q(x)
    ensures Filter(DeleteFirst(s, p) + [x], q) == Filter(s, q)
  {
    DeleteFirstKeepsOthers(s, p, q);
    FilterAppend(DeleteFirst(s, p), x, q);
  }

  /** No two elements share a key: a unique index on `key`. */
  ghost predicate KeysDistinct<T, K>(s: seq<T>, key: T -> K) {
    forall i, j {:trigger key(s[i]), key(s[j])} :: 0 <= i < j < |s| ==> key(s[i]) != key(s[j])
  }

  lemma {:induction false} FilterKeepsKeysDistinct<T, K>(s: seq<T>, p: T -> bool, key: T -> K)
    requires KeysDistinct(s, key)
    ensures KeysDistinct(Filter(s, p), key)
  {
    if |s| > 0 {
      var rest := Filter(s[1..], p);
      assert KeysDistinct(s[1..], key) by {
        forall i, j | 0 <= i < j < |s[1..]| ensures key(s[1..][i]) != key(s[1..][j]) {
          assert s[1..][i] == s[i + 1] && s[1..][j] == s[j + 1];
        }
      }
      FilterKeepsKeysDistinct(s[1..], p, key);
      FilterMembers(s[1..], p);
      if p(s[0]) {
        var r := [s[0]] + rest;
        forall i, j | 0 <= i < j < |r| ensures key(r[i]) != key(r[j]) {
          if i == 0 {
            assert r[j] in rest;
            assert r[j] in s[1..];
            var k :| 0 <= k < |s[1..]| && s[1..][k] == r[j];
            assert s[k + 1] == r[j];
          } else {
            assert r[i] == rest[i - 1] && r[j] == rest[j - 1];
          }
        }
      }
    }
  }

  lemma RemoveAtKeepsKeysDistinct<T, K>(s: seq<T>, i: nat, key: T -> K)
    requires i < |s| && KeysDistinct(s, key)
    ensures KeysDistinct(RemoveAt(s, i), key)
  {
    var r := RemoveAt(s, i);
    forall a, b | 0 <= a < b < |r| ensures key(r[a]) != key(r[b]) {
      var a' := if a < i then a else a + 1;
      var b' := if b < i then b else b + 1;
      assert r[a] == s[a'] && r[b] == s[b'] && a' < b';
    }
  }

  /** Under a unique key, removing the element at `i` removes its key. */
  lemma RemoveAtRemovesKey<T, K>(s: seq<T>, i: nat, key: T -> K)
    requires i < |s| && KeysDistinct(s, key)
    ensures forall j :: 0 <= j < |RemoveAt(s, i)| ==> key(RemoveAt(s, i)[j]) != key(s[i])
  {
    var r := RemoveAt(s, i);
    forall j | 0 <= j < |r| ensures key(r[j]) != key(s[i]) {
      if j < i { assert r[j] == s[j]; } else { assert r[j] == s[j + 1]; }
    }
  }

  lemma AppendKeepsKeysDistinct<T, K>(s: seq<T>, x: T, key: T -> K)
    requires KeysDistinct(s, key)
    requires forall i :: 0 <= i < |s| ==> key(s[i]) != key(x)
    ensures KeysDistinct(s + [x], key)
  {
    var r := s + [x];
    forall a, b | 0 <= a < b < |r| ensures key(r[a]) != key(r[b]) {
      assert r[a] == s[a];
      if b < |s| { assert r[b] == s[b]; }
    }
  }

  /** An update that keeps every element's key keeps the keys distinct. */
  lemma SameKeysKeepKeysDistinct<T, K>(s: seq<T>, r: seq<T>, key: T -> K)
    requires KeysDistinct(s, key) && |r| == |s|
    requires forall j :: 0 <= j < |s| ==> key(r[j]) == key(s[j])
    ensures KeysDistinct(r, key)
  {
    forall a, b | 0 <= a < b < |r| ensures key(r[a]) != key(r[b]) {
      assert key(s[a]) != key(s[b]);
    }
  }

  // ---------------------------------------------------------------------
  // Numbers

  predicate IsDigit(c: char) {
    '0' <= c <= '9'
  }

  function DigitChar(d: nat): (c: char)
    requires d < 10
    ensures IsDigit(c)
  {
    (d + '0' as int) as char
  }

  /** `String(n)` for a non-negative integer: its decimal digits, no sign,
      no leading zeros. */
  function Decimal(n: nat): (s: string)
    ensures 1 <= |s|
    ensures forall i :: 0 <= i < |s| ==> IsDigit(s[i])
    ensures n >= 10 ==> s[0] != '0'
  {
    if n < 10 then [DigitChar(n)] else Decimal(n / 10) + [DigitChar(n % 10)]
  }

  function DigitValue(c: char): nat
    requires IsDigit(c)
  {
    c as int - '0' as int
  }

  /** The number a string of decimal digits denotes. */
  function DigitsValue(s: string): nat
    requires forall i :: 0 <= i < |s| ==> IsDigit(s[i])
  {
    if |s| == 0 then 0
    else DigitsValue(s[..|s| - 1]) * 10 + DigitValue(s[|s| - 1])
  }

  /** Reading back the decimal rendering of `n` gives `n`. */
  lemma {:induction false} DecimalRoundTrip(n: nat)
    ensures DigitsValue(Decimal(n)) == n
  {
    if n >= 10 {
      DecimalRoundTrip(n / 10);
      var s := Decimal(n);
      assert s[..|s| - 1] == Decimal(n / 10);
    }
  }

  /** Distinct numbers have distinct decimal renderings. */
  lemma DecimalInjective(a: nat, b: nat)
    requires Decimal(a) == Decimal(b)
    ensures a == b
  {
    DecimalRoundTrip(a);
    DecimalRoundTrip(b);
  }

  /** A number in [1000, 10000) renders as exactly four digits. */
  lemma {:induction false} DecimalFourDigits(n: nat)
    requires 1000 <= n < 10000
    ensures |Decimal(n)| == 4
  {
    assert Decimal(n / 1000) == [DigitChar(n / 1000)];
    assert n / 100 / 10 == n / 1000;
    assert n / 10 / 10 == n / 100;
    assert |Decimal(n / 100)| == 2;
    assert |Decimal(n / 10)| == 3;
  }

  /** `Math.ceil(a / b)` for a positive divisor: the least integer `q` with
      `q * b >= a`. */
  function CeilDiv(a: int, b: nat): (q: int)
    requires b > 0
    ensures q * b >= a
    ensures (q - 1) * b < a
  {
    -((-a) / b)
  }

  // ---------------------------------------------------------------------
  // Strings

  /** The characters `String.prototype.trim` removes: ECMAScript WhiteSpace
      and LineTerminator. */
  predicate IsWhitespace(c: char) {
    || c in {' ', '\t', '\n', '\r', '\U{000B}', '\U{000C}', '\U{00A0}', '\U{1680}',
             '\U{2028}', '\U{2029}', '\U{202F}', '\U{205F}', '\U{3000}', '\U{FEFF}'}
    || '\U{2000}' <= c <= '\U{200A}'
  }

  function TrimStart(s: string): (r: string)
    ensures |r| <= |s| && r == s[|s| - |r|..]
    ensures r == [] || !IsWhitespace(r[0])
    ensures forall i :: 0 <= i < |s| - |r| ==> IsWhitespace(s[i])
  {
    if |s| > 0 && IsWhitespace(s[0]) then TrimStart(s[1..]) else s
  }

  function TrimEnd(s: string): (r: string)
    ensures |r| <= |s| && r == s[..|r|]
    ensures r == [] || !IsWhitespace(r[|r| - 1])
    ensures forall i :: |r| <= i < |s| ==> IsWhitespace(s[i])
  {
    if |s| > 0 && IsWhitespace(s[|s| - 1]) then TrimEnd(s[..|s| - 1]) else s
  }

  /** `String.prototype.trim`. */
  function Trim(s: string): (r: string)
    ensures |r| <= |s|
    ensures r == [] || (!IsWhitespace(r[0]) && !IsWhitespace(r[|r| - 1]))
    ensures exists i, j :: IsTrimOf(s, r, i, j)
  {
    var started := TrimStart(s);
    var r := TrimEnd(started);
    TrimShape(s, started, r);
    r
  }

  /** `r` is `s[i..j]` and everything outside that slice is whitespace. */
  predicate IsTrimOf(s: string, r: string, i: int, j: int) {
    && 0 <= i <= j <= |s| && r == s[i..j]
    && (forall k :: 0 <= k < |s| && (k < i || j <= k) ==> IsWhitespace(s[k]))
  }

  /** Whitespace cut from the front of `s`, then from the back of what is
      left, leaves a slice of `s` with only whitespace outside it. */
  lemma TrimShape(s: string, started: string, r: string)
    requires |started| <= |s| && started == s[|s| - |started|..]
    requires forall m :: 0 <= m < |s| - |started| ==> IsWhitespace(s[m])
    requires |r| <= |started| && r == started[..|r|]
    requires forall m :: |r| <= m < |started| ==> IsWhitespace(started[m])
    ensures IsTrimOf(s, r, |s| - |started|, |s| - |started| + |r|)
  {
    PrefixOfSuffix(s, started, r);
    WhitespaceAround(s, started, r);
  }

  /** A prefix of a suffix of `s` is a slice of `s`. */
  lemma PrefixOfSuffix<T>(s: seq<T>, suffix: seq<T>, prefix: seq<T>)
    requires |suffix| <= |s| && suffix == s[|s| - |suffix|..]
    requires |prefix| <= |suffix| && prefix == suffix[..|prefix|]
    ensures prefix == s[|s| - |suffix|..|s| - |suffix| + |prefix|]
  {
  }

  /** The whitespace cut on either side lies outside the kept slice. */
  lemma WhitespaceAround(s: string, started: string, r: string)
    requires |started| <= |s| && started == s[|s| - |started|..]
    requires forall m :: 0 <= m < |s| - |started| ==> IsWhitespace(s[m])
    requires |r| <= |started| && forall m :: |r| <= m < |started| ==> IsWhitespace(started[m])
    ensures forall k :: 0 <= k < |s| && (k < |s| - |started| || |s| - |started| + |r| <= k) ==> IsWhitespace(s[k])
  {
    var i := |s| - |started|;
    forall k | 0 <= k < |s| && (k < i || i + |r| <= k) ensures IsWhitespace(s[k]) {
      if i + |r| <= k {
        assert s[k] == started[k - i];
      }
    }
  }

  /** A string without whitespace at either end is left as it is. */
  lemma TrimKeepsClean(s: string)
    requires s == [] || (!IsWhitespace(s[0]) && !IsWhitespace(s[|s| - 1]))
    ensures Trim(s) == s
  {
  }

  /** Trimming twice is trimming once. */
  lemma TrimIdempotent(s: string)
    ensures Trim(Trim(s)) == Trim(s)
  {
    var r := Trim(s);
    assert TrimStart(r) == r;
    assert TrimEnd(r) == r;
  }

  function LowerChar(c: char): (r: char)
    ensures !('A' <= r <= 'Z')
  {
    if 'A' <= c <= 'Z' then (c as int + 32) as char else c
  }

  /** `String.prototype.toLowerCase`, restricted to the ASCII letters. */
  function ToLower(s: string): (r: string)
    ensures |r| == |s|
    ensures forall i :: 0 <= i < |s| ==> r[i] == LowerChar(s[i])
  {
    seq(|s|, i requires 0 <= i < |s| => LowerChar(s[i]))
  }

  predicate StartsWith(s: string, prefix: string) {
    |prefix| <= |s| && s[..|prefix|] == prefix
  }

  /** `String.prototype.split(sep)` for a one-character separator: the
      maximal separator-free runs, empty runs included. */
  function Split(s: string, sep: char): (fields: seq<string>)
    ensures |fields| >= 1
    ensures forall i, j :: 0 <= i < |fields| && 0 <= j < |fields[i]| ==> fields[i][j] != sep
  {
    if |s| == 0 then [""]
    else if s[0] == sep then [""] + Split(s[1..], sep)
    else
      var rest := Split(s[1..], sep);
      [[s[0]] + rest[0]] + rest[1..]
  }

  /** `Array.prototype.join(sep)`. */
  function Join(fields: seq<string>, sep: char): string
    requires |fields| >= 1
  {
    if |fields| == 1 then fields[0] else fields[0] + [sep] + Join(fields[1..], sep)
  }

  /** Splitting loses nothing: joining the fields back gives the string. */
  lemma {:induction false} SplitJoin(s: string, sep: char)
    ensures Join(Split(s, sep), sep) == s
  {
    if |s| > 0 {
      var rest := Split(s[1..], sep);
      SplitJoin(s[1..], sep);
      if s[0] == sep {
        assert Split(s, sep)[1..] == rest;
      } else {
        var fields := Split(s, sep);
        assert fields[1..] == rest[1..];
        if |rest| > 1 {
          assert Join(rest, sep) == rest[0] + [sep] + Join(rest[1..], sep);
        }
      }
    }
  }

  /** A string splits into two or more fields exactly when it holds the
      separator; the string then starts with the first field, the separator
      and the second field, and what follows is empty or starts with the
      separator. */
  lemma SplitSecondField(s: string, sep: char)
    ensures |Split(s, sep)| >= 2 <==> sep in s
    ensures |Split(s, sep)| >= 2 ==>
      var f := Split(s, sep);
      var n := |f[0]| + 1 + |f[1]|;
      && n <= |s|
      && s == f[0] + [sep] + f[1] + s[n..]
      && (n == |s| || s[n] == sep)
  {
    var f := Split(s, sep);
    SplitJoin(s, sep);
    if |f| == 1 {
      assert s == f[0];
    } else {
      var tail := f[1..];
      assert s == f[0] + [sep] + Join(tail, sep);
      assert s[|f[0]|] == sep;
      var n := |f[0]| + 1 + |f[1]|;
      if |tail| == 1 {
        assert s == f[0] + [sep] + f[1];
        assert s[n..] == [];
      } else {
        assert Join(tail, sep) == f[1] + [sep] + Join(tail[1..], sep);
        assert s == f[0] + [sep] + f[1] + ([sep] + Join(tail[1..], sep));
        assert s[n..] == [sep] + Join(tail[1..], sep);
      }
    }
  }

  /** A separator-free string is a single field. */
  lemma {:induction false} SplitWithoutSeparator(s: string, sep: char)
    requires forall i :: 0 <= i < |s| ==> s[i] != sep
    ensures Split(s, sep) == [s]
  {
    if |s| > 0 {
      SplitWithoutSeparator(s[1..], sep);
      assert [s[0]] + s[1..] == s;
    }
  }

  /** Two separator-free strings joined by one separator split back into the
      two of them. */
  lemma {:induction false} SplitTwoFields(a: string, b: string, sep: char)
    requires forall i :: 0 <= i < |a| ==> a[i] != sep
    requires forall i :: 0 <= i < |b| ==> b[i] != sep
    ensures Split(a + [sep] + b, sep) == [a, b]
  {
    if |a| == 0 {
      assert a + [sep] + b == [sep] + b;
      assert ([sep] + b)[1..] == b;
      SplitWithoutSeparator(b, sep);
    } else {
      SplitTwoFields(a[1..], b, sep);
      assert (a + [sep] + b)[1..] == a[1..] + [sep] + b;
      assert [a[0]] + a[1..] == a;
    }
  }
}
