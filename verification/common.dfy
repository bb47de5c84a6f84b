/** Small helpers shared by every module: optional values, the text
    operations Python's `str` provides to the platform (strip, split on a
    separator, decimal formatting), row lookup in tables kept in rowid order,
    order-preserving filtering and the "keep the last n" rule of a bounded
    deque. */
module Common {

  datatype Option<+T> = None | Some(value: T) {
    function GetOr(default: T): T {
      match this
      case Some(v) => v
      case None => default
    }
  }

  /** What a route returns: a value, or the HTTP status it aborts with. */
  datatype Outcome<+T> = Ok(value: T) | Fail(code: int)

  // ---------------------------------------------------------------------
  // Whitespace stripping (Python `str.strip()` with no argument)
  // ---------------------------------------------------------------------

  /** The characters `str.strip()` removes: those Python's `str.isspace()`
      accepts. In ASCII these are tab, line feed, vertical tab, form feed,
      carriage return, the four separators U+001C..U+001F and space; beyond
      ASCII, next line, no-break space and the Unicode space separators and
      line and paragraph separators. */
  predicate IsSpace(c: char) {
    || '\t' <= c <= '\r'
    || '\U{001C}' <= c <= ' '
    || c == '\U{0085}' || c == '\U{00A0}' || c == '\U{1680}'
    || '\U{2000}' <= c <= '\U{200A}'
    || c == '\U{2028}' || c == '\U{2029}' || c == '\U{202F}' || c == '\U{205F}' || c == '\U{3000}'
  }

  predicate AllSpace(s: string) {
    forall i :: 0 <= i < |s| ==> IsSpace(s[i])
  }

  /** Neither end of `s` is whitespace. */
  predicate Trimmed(s: string) {
    s == [] || (!IsSpace(s[0]) && !IsSpace(s[|s| - 1]))
  }

  lemma AllSpaceAppend(a: string, b: string)
    requires AllSpace(a) && AllSpace(b)
    ensures AllSpace(a + b)
  {
    forall i | 0 <= i < |a + b| ensures IsSpace((a + b)[i]) {
      if i >= |a| { assert (a + b)[i] == b[i - |a|]; }
    }
  }

  /** `r` is `s` without its leading whitespace. */
  predicate IsLeftTrim(s: string, r: string) {
    && |r| <= |s| && r == s[|s| - |r|..]
    && AllSpace(s[..|s| - |r|])
    && (r == [] || !IsSpace(r[0]))
  }

  /** `r` is `s` without its trailing whitespace. */
  predicate IsRightTrim(s: string, r: string) {
    && |r| <= |s| && r == s[..|r|]
    && AllSpace(s[|r|..])
    && (r == [] || !IsSpace(r[|r| - 1]))
  }

  function TrimLeft(s: string): (r: string)
    ensures IsLeftTrim(s, r)
  {
    if |s| > 0 && IsSpace(s[0]) then
      var r := TrimLeft(s[1..]);
      LeftTrimCons(s, r);
      r
    else s
  }

  /** A leading blank in front of a left-trimmed string is trimmed too. */
  lemma LeftTrimCons(s: string, r: string)
    requires |s| > 0 && IsSpace(s[0]) && IsLeftTrim(s[1..], r)
    ensures IsLeftTrim(s, r)
  {
    var t := s[1..];
    assert s[..|s| - |r|] == [s[0]] + t[..|t| - |r|];
    AllSpaceAppend([s[0]], t[..|t| - |r|]);
  }

  function TrimRight(s: string): (r: string)
    ensures IsRightTrim(s, r)
  {
    if |s| > 0 && IsSpace(s[|s| - 1]) then
      var r := TrimRight(s[..|s| - 1]);
      RightTrimSnoc(s, r);
      r
    else s
  }

  /** A trailing blank after a right-trimmed string is trimmed too. */
  lemma RightTrimSnoc(s: string, r: string)
    requires |s| > 0 && IsSpace(s[|s| - 1]) && IsRightTrim(s[..|s| - 1], r)
    ensures IsRightTrim(s, r)
  {
    var t := s[..|s| - 1];
    assert s[|r|..] == t[|r|..] + [s[|s| - 1]];
    AllSpaceAppend(t[|r|..], [s[|s| - 1]]);
  }

  /** `s.strip()`: the result is a slice of `s` with whitespace on both
      sides removed and none left at either end. */
  function Strip(s: string): (r: string)
    ensures Trimmed(r)
    ensures exists a, b :: 0 <= a <= b <= |s| && r == s[a..b] && AllSpace(s[..a]) && AllSpace(s[b..])
  {
    StripTrimmed(s);
    StripSlice(s);
    TrimRight(TrimLeft(s))
  }

  lemma StripTrimmed(s: string)
    ensures Trimmed(TrimRight(TrimLeft(s)))
  {
    var l := TrimLeft(s);
    var r := TrimRight(l);
    if r != [] {
      assert r[0] == l[0];
    }
  }

  lemma StripSlice(s: string)
    ensures var r := TrimRight(TrimLeft(s));
            exists a, b :: 0 <= a <= b <= |s| && r == s[a..b] && AllSpace(s[..a]) && AllSpace(s[b..])
  {
    var l := TrimLeft(s);
    PaddedSlice(s, l, TrimRight(l));
  }

  /** Trimming the left end and then the right end leaves a slice of `s`
      with only whitespace cut off on either side. */
  lemma PaddedSlice(s: string, l: string, r: string)
    requires IsLeftTrim(s, l) && IsRightTrim(l, r)
    ensures exists a, b :: 0 <= a <= b <= |s| && r == s[a..b] && AllSpace(s[..a]) && AllSpace(s[b..])
  {
    var a := |s| - |l|;
    SliceOfSuffix(s, a, r);
    var b := a + |r|;
    assert r == s[a..b] && AllSpace(s[..a]) && AllSpace(s[b..]);
  }

  /** A prefix of a suffix is a middle slice. */
  lemma SliceOfSuffix<T>(s: seq<T>, a: nat, r: seq<T>)
    requires a <= |s| && |r| <= |s| - a && r == s[a..][..|r|]
    ensures r == s[a..a + |r|] && s[a + |r|..] == s[a..][|r|..]
  {
  }

  /** What a sequence gained over a prefix splits at an intermediate
      prefix. */
  lemma GrowthSplits<T>(s: seq<T>, m: seq<T>, t: seq<T>)
    requires s <= m && m <= t
    ensures t[|s|..] == m[|s|..] + t[|m|..]
  {
  }

  /** The last `k` elements of a suffix are the last `k` of the whole. */
  lemma SuffixOfSuffix<T>(s: seq<T>, t: seq<T>, k: nat)
    requires |t| <= |s| && t == s[|s| - |t|..] && k <= |t|
    ensures t[|t| - k..] == s[|s| - k..]
  {
  }

  lemma {:induction false} TrimLeftPadding(w: string, t: string)
    requires AllSpace(w) && (t == [] || !IsSpace(t[0]))
    ensures TrimLeft(w + t) == t
    decreases |w|
  {
    if |w| > 0 {
      assert (w + t)[1..] == w[1..] + t;
      TrimLeftPadding(w[1..], t);
    } else {
      assert w + t == t;
    }
  }

  lemma {:induction false} TrimRightPadding(t: string, w: string)
    requires AllSpace(w) && (t == [] || !IsSpace(t[|t| - 1]))
    ensures TrimRight(t + w) == t
    decreases |w|
  {
    if |w| > 0 {
      assert (t + w)[..|t + w| - 1] == t + w[..|w| - 1];
      TrimRightPadding(t, w[..|w| - 1]);
    } else {
      assert t + w == t;
    }
  }

  /** Stripping is the left inverse of padding a trimmed string with
      whitespace on either side. */
  lemma StripPadding(w1: string, t: string, w2: string)
    requires AllSpace(w1) && AllSpace(w2) && Trimmed(t)
    ensures Strip(w1 + t + w2) == t
  {
    assert w1 + t + w2 == w1 + (t + w2);
    if t == [] {
      TrimLeftPadding(w1 + w2, []);
      assert w1 + t + w2 == (w1 + w2) + [];
      assert TrimRight([]) == [];
    } else {
      assert (t + w2)[0] == t[0];
      TrimLeftPadding(w1, t + w2);
      TrimRightPadding(t, w2);
    }
  }

  /** Stripping a trimmed string leaves it as it is. */
  lemma StripOfTrimmed(t: string)
    requires Trimmed(t)
    ensures Strip(t) == t
  {
    StripPadding([], t, []);
    assert [] + t + [] == t;
  }

  // ---------------------------------------------------------------------
  // Splitting on a separator (Python `str.split(sep)`) and joining
  // ---------------------------------------------------------------------

  function Split(s: string, sep: char): (parts: seq<string>)
    ensures |parts| >= 1
    ensures forall i :: 0 <= i < |parts| ==> sep !in parts[i]
    decreases |s|
  {
    if |s| == 0 then [""]
    else
      var rest := Split(s[1..], sep);
      if s[0] == sep then [""] + rest
      else [[s[0]] + rest[0]] + rest[1..]
  }

  /** `sep.join(parts)` for a non-empty list. */
  function Join(parts: seq<string>, sep: char): string
    requires |parts| >= 1
  {
    if |parts| == 1 then parts[0] else parts[0] + [sep] + Join(parts[1..], sep)
  }

  /** Joining the pieces of a split gives back the original text. */
  lemma {:induction false} JoinSplit(s: string, sep: char)
    ensures Join(Split(s, sep), sep) == s
    decreases |s|
  {
    if |s| > 0 {
      var rest := Split(s[1..], sep);
      JoinSplit(s[1..], sep);
      if s[0] == sep {
        assert Split(s, sep) == [""] + rest;
        assert ([""] + rest)[1..] == rest;
        assert s == [sep] + s[1..];
      } else {
        var parts := Split(s, sep);
        assert parts == [[s[0]] + rest[0]] + rest[1..];
        if |rest| == 1 {
          assert s == [s[0]] + s[1..];
        } else {
          assert parts[1..] == rest[1..];
          assert Join(rest, sep) == rest[0] + [sep] + Join(rest[1..], sep);
          assert s == [s[0]] + s[1..];
        }
      }
    }
  }

  /** Splitting a join of separator-free pieces gives back the pieces. */
  lemma {:induction false} SplitJoin(parts: seq<string>, sep: char)
    requires |parts| >= 1
    requires forall i :: 0 <= i < |parts| ==> sep !in parts[i]
    ensures Split(Join(parts, sep), sep) == parts
    decreases |parts|, |parts[0]|
  {
    var p := parts[0];
    if |p| == 0 {
      if |parts| == 1 {
      } else {
        var tail := Join(parts[1..], sep);
        assert Join(parts, sep) == [sep] + tail;
        assert ([sep] + tail)[1..] == tail;
        SplitJoin(parts[1..], sep);
        assert parts == [""] + parts[1..];
      }
    } else {
      var shorter := [p[1..]] + parts[1..];
      assert shorter[1..] == parts[1..];
      assert Join(parts, sep) == [p[0]] + Join(shorter, sep) by {
        if |parts| > 1 {
          assert p + [sep] + Join(parts[1..], sep) == [p[0]] + (p[1..] + [sep] + Join(parts[1..], sep));
        } else {
          assert p == [p[0]] + p[1..];
        }
      }
      assert forall i :: 0 <= i < |shorter| ==> sep !in shorter[i] by {
        forall i | 0 <= i < |shorter| ensures sep !in shorter[i] {
          if i == 0 {
            assert sep !in p;
            assert forall c :: c in p[1..] ==> c in p;
          } else {
            assert shorter[i] == parts[i];
          }
        }
      }
      SplitJoin(shorter, sep);
      assert p[0] != sep by { assert p[0] in p; }
      var s := Join(parts, sep);
      assert s[1..] == Join(shorter, sep);
      assert [p[0]] + p[1..] == p;
      assert parts == [p] + parts[1..];
    }
  }

  // ---------------------------------------------------------------------
  // Decimal rendering of integers (`str(n)` / f-string `{n}`)
  // ---------------------------------------------------------------------

  function DigitChar(d: nat): char
    requires d < 10
  {
    "0123456789"[d]
  }

  function DigitValue(c: char): nat {
    if '0' <= c <= '9' then (c as int - '0' as int) as nat else 0
  }

  /** The numeric value of a string of decimal digits. */
  function DecimalValue(s: string): nat {
    if |s| == 0 then 0 else 10 * DecimalValue(s[..|s| - 1]) + DigitValue(s[|s| - 1])
  }

  function NatToString(n: nat): (r: string)
    ensures |r| >= 1
    ensures forall i :: 0 <= i < |r| ==> '0' <= r[i] <= '9'
    decreases n
  {
    if n < 10 then [DigitChar(n)] else NatToString(n / 10) + [DigitChar(n % 10)]
  }

  function IntToString(n: int): (r: string)
    ensures |r| >= 1
  {
    if n < 0 then "-" + NatToString(-n) else NatToString(n)
  }

  /** Reading back the decimal rendering gives the number again. */
  lemma {:induction false} DecimalRoundTrip(n: nat)
    ensures DecimalValue(NatToString(n)) == n
    decreases n
  {
    var s := NatToString(n);
    if n < 10 {
      assert s[..0] == [];
    } else {
      DecimalRoundTrip(n / 10);
      assert s[..|s| - 1] == NatToString(n / 10);
    }
  }

  lemma NatToStringInjective(a: nat, b: nat)
    requires NatToString(a) == NatToString(b)
    ensures a == b
  {
    DecimalRoundTrip(a);
    DecimalRoundTrip(b);
  }

  lemma NatToStringUnsigned(n: nat)
    ensures NatToString(n)[0] != '-'
  {
  }

  /** The value of an optionally signed decimal string. */
  function SignedValue(s: string): int {
    if |s| > 0 && s[0] == '-' then -(DecimalValue(s[1..]) as int) else DecimalValue(s)
  }

  /** Reading back the signed rendering gives the number again. */
  lemma SignedRoundTrip(n: int)
    ensures SignedValue(IntToString(n)) == n
  {
    if n < 0 {
      NegativeRoundTrip(n);
    } else {
      UnsignedRoundTrip(n);
    }
  }

  lemma NegativeRoundTrip(n: int)
    requires n < 0
    ensures SignedValue("-" + NatToString(-n)) == n
  {
    var m: nat := -n;
    var t := NatToString(m);
    DecimalRoundTrip(m);
    assert DecimalValue(t) == m;
    SignedOfMinus(t);
  }

  lemma UnsignedRoundTrip(n: nat)
    ensures SignedValue(NatToString(n)) == n
  {
    NatToStringUnsigned(n);
    SignedOfUnsigned(NatToString(n));
    DecimalRoundTrip(n);
  }

  lemma SignedOfUnsigned(t: string)
    requires |t| > 0 && t[0] != '-'
    ensures SignedValue(t) == DecimalValue(t) as int
  {
  }

  lemma SignedOfMinus(t: string)
    ensures SignedValue("-" + t) == -(DecimalValue(t) as int)
  {
    assert ("-" + t)[1..] == t;
  }

  /** Distinct integers render differently. */
  lemma IntToStringInjective(a: int, b: int)
    requires IntToString(a) == IntToString(b)
    ensures a == b
  {
    SignedRoundTrip(a);
    SignedRoundTrip(b);
  }

  // ---------------------------------------------------------------------
  // Tables: rows kept in rowid order, looked up by primary key
  // ---------------------------------------------------------------------

  lemma SeqAssoc<T>(a: seq<T>, b: seq<T>, c: seq<T>)
    ensures (a + b) + c == a + (b + c)
  {
  }

  /** Position of the row whose key is `key`, if any. */
  function Find<T>(rows: seq<T>, key: int, keyOf: T -> int): (r: Option<nat>)
    ensures r.Some? ==> r.value < |rows| && keyOf(rows[r.value]) == key
    ensures r.None? <==> forall i :: 0 <= i < |rows| ==> keyOf(rows[i]) != key
  {
    if |rows| == 0 then None
    else if keyOf(rows[0]) == key then Some(0)
    else match Find(rows[1..], key, keyOf)
      case None => None
      case Some(i) => Some(i + 1)
  }

  /** Lookup finds the first row carrying the key. */
  lemma {:induction false} FindFirstKey<T>(rows: seq<T>, key: int, keyOf: T -> int, n: nat)
    requires n < |rows| && keyOf(rows[n]) == key
    requires forall i :: 0 <= i < n ==> keyOf(rows[i]) != key
    ensures Find(rows, key, keyOf) == Some(n)
    decreases n
  {
    if n > 0 {
      FindFirstKey(rows[1..], key, keyOf, n - 1);
    }
  }

  /** The first row whose `field` is `value`:
      `filter_by(field=value).first()` on a column that is not the key. */
  function FindFirst<T, K(==)>(rows: seq<T>, value: K, field: T -> K): (r: Option<T>)
    ensures r.Some? ==> r.value in rows && field(r.value) == value
    ensures r.None? <==> forall i :: 0 <= i < |rows| ==> field(rows[i]) != value
  {
    if |rows| == 0 then None
    else if field(rows[0]) == value then Some(rows[0])
    else FindFirst(rows[1..], value, field)
  }

  /** Primary keys are distinct. */
  ghost predicate UniqueKeys<T>(rows: seq<T>, keyOf: T -> int) {
    forall i, j :: 0 <= i < j < |rows| ==> keyOf(rows[i]) != keyOf(rows[j])
  }

  /** Lookup only looks at keys: tables with the same keys in the same
      order find the same position. */
  lemma {:induction false} FindSameKeys<T>(a: seq<T>, b: seq<T>, key: int, keyOf: T -> int)
    requires |a| == |b| && forall j :: 0 <= j < |a| ==> keyOf(a[j]) == keyOf(b[j])
    ensures Find(a, key, keyOf) == Find(b, key, keyOf)
    decreases |a|
  {
    if |a| > 0 {
      FindSameKeys(a[1..], b[1..], key, keyOf);
    }
  }

  /** Tables with the same keys in the same order are both keyed uniquely or neither. */
  lemma SameKeysStayUnique<T>(a: seq<T>, b: seq<T>, keyOf: T -> int)
    requires |a| == |b| && forall j :: 0 <= j < |a| ==> keyOf(a[j]) == keyOf(b[j])
    requires UniqueKeys(a, keyOf)
    ensures UniqueKeys(b, keyOf)
  {
  }

  /** Under distinct keys, a key determines the row's position. */
  lemma SameKeySameRow<T>(rows: seq<T>, keyOf: T -> int, i: nat, j: nat)
    requires UniqueKeys(rows, keyOf)
    requires i < |rows| && j < |rows| && keyOf(rows[i]) == keyOf(rows[j])
    ensures i == j
  {
  }

  /** The rowid SQLite assigns to the next insert: one past the largest key. */
  function NextKey<T>(rows: seq<T>, keyOf: T -> int): (r: int)
    ensures r >= 1
    ensures forall i :: 0 <= i < |rows| ==> keyOf(rows[i]) < r
  {
    if |rows| == 0 then 1
    else
      var k := NextKey(rows[..|rows| - 1], keyOf);
      var last := keyOf(rows[|rows| - 1]);
      if last + 1 > k then last + 1 else k
  }

  /** Appending a row keyed by `NextKey` keeps the keys distinct. */
  lemma InsertKeepsUnique<T>(rows: seq<T>, row: T, keyOf: T -> int)
    requires keyOf(row) == NextKey(rows, keyOf)
    ensures UniqueKeys(rows, keyOf) ==> UniqueKeys(rows + [row], keyOf)
  {
  }

  /** `UPDATE ... SET ... WHERE key = ?`: every row with that key is
      rewritten by `f`, every other row is kept, and the order is kept. */
  function UpdateWhere<T>(rows: seq<T>, key: int, keyOf: T -> int, f: T -> T): (r: seq<T>)
    ensures |r| == |rows|
    ensures forall j :: 0 <= j < |rows| && keyOf(rows[j]) != key ==> r[j] == rows[j]
    ensures forall j :: 0 <= j < |rows| && keyOf(rows[j]) == key ==> r[j] == f(rows[j])
  {
    seq(|rows|, j requires 0 <= j < |rows| => if keyOf(rows[j]) == key then f(rows[j]) else rows[j])
  }

  // ---------------------------------------------------------------------
  // Order-preserving filtering
  // ---------------------------------------------------------------------

  /** `a` can be obtained from `b` by deleting elements. */
  ghost predicate IsSubsequence<T>(a: seq<T>, b: seq<T>)
    decreases |b|
  {
    if |a| == 0 then true
    else if |b| == 0 then false
    else (a[0] == b[0] && IsSubsequence(a[1..], b[1..])) || IsSubsequence(a, b[1..])
  }

  /** `[x for x in s if keep(x)]` */
  function Filter<T>(s: seq<T>, keep: T -> bool): seq<T> {
    if |s| == 0 then []
    else if keep(s[0]) then [s[0]] + Filter(s[1..], keep)
    else Filter(s[1..], keep)
  }

  /** A filter keeps each kept element with its full multiplicity, drops
      the others entirely, and keeps the input order. */
  lemma {:induction false} FilterSpec<T>(s: seq<T>, keep: T -> bool)
    ensures forall x :: multiset(Filter(s, keep))[x] == if keep(x) then multiset(s)[x] else 0
    ensures IsSubsequence(Filter(s, keep), s)
    decreases |s|
  {
    if |s| > 0 {
      FilterSpec(s[1..], keep);
      assert s == [s[0]] + s[1..];
      assert multiset(s) == multiset{s[0]} + multiset(s[1..]);
      var f := Filter(s, keep);
      if keep(s[0]) {
        assert f[0] == s[0] && f[1..] == Filter(s[1..], keep);
        assert multiset(f) == multiset{s[0]} + multiset(Filter(s[1..], keep));
      }
    }
  }

  /** An element survives a filter iff it was there and is kept. */
  lemma {:induction false} FilterMember<T>(s: seq<T>, keep: T -> bool, x: T)
    ensures x in Filter(s, keep) <==> x in s && keep(x)
    decreases |s|
  {
    if |s| > 0 {
      FilterMember(s[1..], keep, x);
      assert s == [s[0]] + s[1..];
    }
  }

  /** Filtering a table keeps its keys distinct. */
  lemma {:induction false} FilterKeepsUnique<T>(s: seq<T>, keep: T -> bool, keyOf: T -> int)
    requires UniqueKeys(s, keyOf)
    ensures UniqueKeys(Filter(s, keep), keyOf)
    decreases |s|
  {
    if |s| > 0 {
      var tail := s[1..];
      assert forall i :: 0 <= i < |tail| ==> tail[i] == s[i + 1];
      assert UniqueKeys(tail, keyOf);
      FilterKeepsUnique(tail, keep, keyOf);
      var f := Filter(tail, keep);
      forall i | 0 <= i < |f| ensures keyOf(f[i]) != keyOf(s[0]) {
        FilterMember(tail, keep, f[i]);
      }
      if keep(s[0]) {
        var g := [s[0]] + f;
        assert Filter(s, keep) == g;
        forall i, j | 0 <= i < j < |g| ensures keyOf(g[i]) != keyOf(g[j]) {
          assert g[j] == f[j - 1];
          if i > 0 { assert g[i] == f[i - 1]; }
        }
      }
    }
  }

  /** In a table with distinct keys, a filtered row is the table row that
      has its key, and that row passed the filter. */
  lemma FilteredRowIsTableRow<T>(s: seq<T>, keep: T -> bool, keyOf: T -> int, i: nat, j: nat)
    requires UniqueKeys(s, keyOf)
    requires i < |Filter(s, keep)| && j < |s| && keyOf(s[j]) == keyOf(Filter(s, keep)[i])
    ensures s[j] == Filter(s, keep)[i] && keep(s[j])
  {
    var x := Filter(s, keep)[i];
    FilterMember(s, keep, x);
    var j' :| 0 <= j' < |s| && s[j'] == x;
    SameKeySameRow(s, keyOf, j, j');
  }

  /** `DELETE ... WHERE key = ?`: exactly the rows with that key go, the
      others stay in order. */
  function DeleteWhere<T(!new)>(rows: seq<T>, key: int, keyOf: T -> int): (r: seq<T>)
    ensures forall x :: multiset(r)[x] == if keyOf(x) == key then 0 else multiset(rows)[x]
    ensures IsSubsequence(r, rows)
  {
    var keep := (x: T) => keyOf(x) != key;
    FilterSpec(rows, keep);
    Filter(rows, keep)
  }

  // ---------------------------------------------------------------------
  // Bounded deques
  // ---------------------------------------------------------------------

  /** The last `n` elements of `s` (all of `s` when it is shorter). */
  function LastN<T>(s: seq<T>, n: nat): (r: seq<T>)
    ensures |r| == if |s| <= n then |s| else n
    ensures r == s[|s| - |r|..]
  {
    if |s| <= n then s else s[|s| - n..]
  }
}
