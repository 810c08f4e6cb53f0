/** Helpers shared by every route and page model: optional values, HTTP-style
    responses, JavaScript truthiness, ceiling division, ASCII lower-casing,
    decimal rendering and parsing of integers, ordering and paging of rows. */
module Common {

  /** A value that may be missing (`undefined`/`null` in the source). */
  datatype Option<+T> = None | Some(value: T)

  /** What a route handler answers: a 200 with its payload, or an error status
      with the message the handler puts in its JSON body. */
  datatype Response<+T> = Ok(value: T) | Fail(status: int, message: string)

  // ---------------------------------------------------------------------------
  // JavaScript truthiness of request fields

  /** `!!x` for a numeric field: present and not 0. */
  predicate TruthyInt(x: Option<int>) {
    x.Some? && x.value != 0
  }

  /** `!!x` for a string field: present and not empty. */
  predicate TruthyStr(x: Option<string>) {
    x.Some? && x.value != ""
  }

  // ---------------------------------------------------------------------------
  // Arithmetic

  /** `Math.ceil(a / d)` for a positive divisor. */
  function CeilDiv(a: int, d: int): (q: int)
    requires d > 0
    ensures (q - 1) * d < a <= q * d
  {
    var f := (-a) / d;
    assert f * d <= -a < f * d + d;
    -f
  }

  function Max(a: int, b: int): int {
    if a >= b then a else b
  }

  function Min(a: int, b: int): int {
    if a <= b then a else b
  }

  // ---------------------------------------------------------------------------
  // Strings

  /** `toLowerCase` on one character; only ASCII letters are modelled. */
  function LowerChar(c: char): (r: char)
    ensures 'A' <= c <= 'Z' ==> 'a' <= r <= 'z'
    ensures !('A' <= c <= 'Z') ==> r == c
  {
    if 'A' <= c <= 'Z' then (c as int + 32) as char else c
  }

  function ToLower(s: string): (r: string)
    ensures |r| == |s|
    ensures forall k :: 0 <= k < |s| ==> r[k] == LowerChar(s[k])
  {
    if s == [] then [] else [LowerChar(s[0])] + ToLower(s[1..])
  }

  /** Lower-casing twice is lower-casing once. */
  lemma {:induction false} ToLowerIdempotent(s: string)
    ensures ToLower(ToLower(s)) == ToLower(s)
  {
    if s != [] {
      ToLowerIdempotent(s[1..]);
    }
  }

  /** A string without upper-case ASCII letters is its own lower-case form. */
  lemma {:induction false} ToLowerOfLower(s: string)
    requires forall i :: 0 <= i < |s| ==> !('A' <= s[i] <= 'Z')
    ensures ToLower(s) == s
  {
    if s != [] {
      ToLowerOfLower(s[1..]);
    }
  }

  predicate IsDigit(c: char) {
    '0' <= c <= '9'
  }

  predicate AllDigits(s: string) {
    forall i :: 0 <= i < |s| ==> IsDigit(s[i])
  }

  function DigitChar(d: int): (c: char)
    requires 0 <= d < 10
    ensures IsDigit(c) && c as int - '0' as int == d
  {
    ('0' as int + d) as char
  }

  /** `String(n)` for a natural number: its decimal digits, no leading zero. */
  function NatToString(n: nat): (s: string)
    ensures 1 <= |s| && AllDigits(s)
    ensures |s| > 1 ==> s[0] != '0'
  {
    if n < 10 then [DigitChar(n)] else NatToString(n / 10) + [DigitChar(n % 10)]
  }

  /** `String(n)` / `n.toString()` for any integer. */
  function IntToString(n: int): string {
    if n < 0 then "-" + NatToString(-n) else NatToString(n)
  }

  /** The number a string of decimal digits denotes. */
  function DigitsValue(s: string): nat
    requires AllDigits(s)
  {
    if s == [] then 0 else DigitsValue(s[..|s| - 1]) * 10 + (s[|s| - 1] as int - '0' as int)
  }

  /** Rendering then reading the digits gives the number back. */
  lemma {:induction false} DigitsValueOfNatToString(n: nat)
    ensures DigitsValue(NatToString(n)) == n
  {
    if n >= 10 {
      var s := NatToString(n);
      assert s[..|s| - 1] == NatToString(n / 10);
      DigitsValueOfNatToString(n / 10);
    }
  }

  /** Length of the longest prefix of `s` made of decimal digits. */
  function DigitRun(s: string): (k: nat)
    ensures k <= |s| && AllDigits(s[..k])
    ensures k < |s| ==> !IsDigit(s[k])
  {
    if s == [] || !IsDigit(s[0]) then 0
    else
      var k := 1 + DigitRun(s[1..]);
      assert s[..k] == [s[0]] + s[1..][..k - 1];
      k
  }

  /** `parseInt(s, 10)`: an optional sign, then the longest run of digits;
      `None` stands for NaN (no digit at all). Leading white space, which
      `parseInt` skips, is not modelled. */
  function ParseInt(s: string): Option<int> {
    if s != [] && (s[0] == '-' || s[0] == '+') then
      var rest := s[1..];
      var k := DigitRun(rest);
      if k == 0 then None
      else
        var v: int := DigitsValue(rest[..k]);
        if s[0] == '-' then Some(-v) else Some(v)
    else
      var k := DigitRun(s);
      if k == 0 then None else Some(DigitsValue(s[..k]) as int)
  }

  lemma {:induction false} DigitRunOfDigits(s: string)
    requires AllDigits(s)
    ensures DigitRun(s) == |s|
  {
    if s != [] {
      DigitRunOfDigits(s[1..]);
    }
  }

  /** Reading the whole of a digit string that `NatToString` produced. */
  lemma ReadNatToString(n: nat)
    ensures DigitRun(NatToString(n)) == |NatToString(n)|
    ensures DigitsValue(NatToString(n)[..DigitRun(NatToString(n))]) == n
  {
    var t := NatToString(n);
    DigitRunOfDigits(t);
    assert t[..|t|] == t;
    DigitsValueOfNatToString(n);
  }

  /** `parseInt(String(n))` is `n` for every integer `n`. */
  lemma ParseIntOfIntToString(n: int)
    ensures ParseInt(IntToString(n)) == Some(n)
  {
    var s := IntToString(n);
    if n < 0 {
      var t := NatToString(-n);
      assert s == "-" + t && s[0] == '-' && s[1..] == t;
      ReadNatToString(-n);
    } else {
      var t := NatToString(n);
      assert s == t && !(s[0] == '-' || s[0] == '+');
      ReadNatToString(n);
    }
  }

  // ---------------------------------------------------------------------------
  // Ordering and paging of query results

  /** Rows ordered by a key, largest first (`order: { key: "DESC" }`). */
  ghost predicate SortedDesc<T>(s: seq<T>, key: T -> int) {
    forall i, j :: 0 <= i < j < |s| ==> key(s[i]) >= key(s[j])
  }

  function InsertDesc<T>(x: T, s: seq<T>, key: T -> int): (r: seq<T>)
    requires SortedDesc(s, key)
    ensures SortedDesc(r, key)
    ensures multiset(r) == multiset(s) + multiset{x}
    ensures |r| == |s| + 1
  {
    if s == [] || key(x) >= key(s[0]) then
      ConsSortedDesc(x, s, key);
      [x] + s
    else
      var t := InsertDesc(x, s[1..], key);
      assert s == [s[0]] + s[1..];
      HeadBoundsInsert(s[0], x, s[1..], t, key);
      ConsSortedDesc(s[0], t, key);
      [s[0]] + t
  }

  /** A row whose key bounds every key of a sorted run can go in front of it. */
  lemma ConsSortedDesc<T>(h: T, t: seq<T>, key: T -> int)
    requires SortedDesc(t, key)
    requires forall k :: 0 <= k < |t| ==> key(h) >= key(t[k])
    ensures SortedDesc([h] + t, key)
  {
    var r := [h] + t;
    forall i, j | 0 <= i < j < |r| ensures key(r[i]) >= key(r[j]) {
      assert r[j] == t[j - 1];
      if i > 0 {
        assert r[i] == t[i - 1];
      }
    }
  }

  /** The head of a sorted run bounds the run with a smaller row inserted. */
  lemma HeadBoundsInsert<T>(h: T, x: T, s: seq<T>, t: seq<T>, key: T -> int)
    requires SortedDesc([h] + s, key) && key(h) > key(x)
    requires multiset(t) == multiset(s) + multiset{x}
    ensures forall k :: 0 <= k < |t| ==> key(h) >= key(t[k])
  {
    forall k | 0 <= k < |t| ensures key(h) >= key(t[k]) {
      assert t[k] in multiset(t);
      if t[k] != x {
        assert t[k] in multiset(s);
        var i :| 0 <= i < |s| && s[i] == t[k];
        assert ([h] + s)[0] == h && ([h] + s)[i + 1] == s[i];
      }
    }
  }

  /** The rows of `s`, reordered largest key first. */
  function SortDesc<T>(s: seq<T>, key: T -> int): (r: seq<T>)
    ensures SortedDesc(r, key)
    ensures multiset(r) == multiset(s)
    ensures |r| == |s|
  {
    if s == [] then []
    else
      assert s == [s[0]] + s[1..];
      InsertDesc(s[0], SortDesc(s[1..], key), key)
  }

  /** The rows that satisfy a `where` condition, in their original order. */
  function Filter<T(!new)>(s: seq<T>, p: T -> bool): (r: seq<T>)
    ensures |r| <= |s|
    ensures forall x :: multiset(r)[x] == if p(x) then multiset(s)[x] else 0
  {
    if s == [] then []
    else
      assert s == [s[0]] + s[1..];
      if p(s[0]) then [s[0]] + Filter(s[1..], p) else Filter(s[1..], p)
  }

  /** `s.map(f)` where `f` may throw (`None`): all results, or `None` if any throws. */
  function MapAll<A, B>(s: seq<A>, f: A -> Option<B>): (r: Option<seq<B>>)
    ensures r.Some? <==> forall k :: 0 <= k < |s| ==> f(s[k]).Some?
    ensures r.Some? ==> (|r.value| == |s| && forall k :: 0 <= k < |s| ==> r.value[k] == f(s[k]).value)
  {
    if s == [] then Some([])
    else
      match (f(s[0]), MapAll(s[1..], f))
      case (Some(y), Some(rest)) =>
        assert forall k :: 1 <= k < |s| ==> s[k] == s[1..][k - 1];
        Some([y] + rest)
      case (None, _) => None
      case (Some(_), None) =>
        assert exists k :: 0 <= k < |s[1..]| && f(s[1..][k]).None?;
        None
  }

  /** The first element satisfying `p`, as a `findOne` with a `where` clause returns it. */
  function FindFirst<T>(s: seq<T>, p: T -> bool): (r: Option<T>)
    ensures r.Some? ==> r.value in s && p(r.value)
    ensures r.Some? ==> exists k :: 0 <= k < |s| && s[k] == r.value && forall j :: 0 <= j < k ==> !p(s[j])
    ensures r.None? <==> forall k :: 0 <= k < |s| ==> !p(s[k])
  {
    if s == [] then None
    else if p(s[0]) then Some(s[0])
    else
      var r := FindFirst(s[1..], p);
      assert forall k :: 1 <= k < |s| ==> s[k] == s[1..][k - 1];
      assert r.Some? ==> exists k :: 0 <= k < |s| && s[k] == r.value && forall j :: 0 <= j < k ==> !p(s[j]) by {
        if r.Some? {
          var k :| 0 <= k < |s[1..]| && s[1..][k] == r.value && forall j :: 0 <= j < k ==> !p(s[1..][j]);
          assert s[k + 1] == r.value && forall j :: 0 <= j < k + 1 ==> !p(s[j]);
        }
      }
      r
  }

  /** `skip`/`take`: at most `take` rows starting at row `skip`. */
  function Window<T>(s: seq<T>, skip: nat, take: nat): (r: seq<T>)
    ensures |r| == Max(0, Min(take, |s| - skip))
    ensures forall k :: 0 <= k < |r| ==> r[k] == s[skip + k]
  {
    if skip >= |s| then [] else s[skip..Min(skip + take, |s|)]
  }

  /** `Math.ceil(total / limit)` pages of `limit` rows hold `total` rows. */
  function TotalPages(total: nat, limit: int): (p: nat)
    requires limit >= 1
    ensures (p - 1) * limit < total <= p * limit || (total == 0 && p == 0)
  {
    CeilDiv(total, limit)
  }

  /** `parseInt(searchParams.get("page") || "1")` on an already parsed value:
      a page given in the query string is used as it is, a missing one is 1. */
  function PageParam(page: Option<int>): (p: int)
    ensures page.None? ==> p == 1
    ensures page.Some? ==> p == page.value
  {
    if page.None? then 1 else page.value
  }

  /** The same for `limit`, whose default is 5. */
  function LimitParam(limit: Option<int>): (l: int)
    ensures limit.None? ==> l == 5
    ensures limit.Some? ==> l == limit.value
  {
    if limit.None? then 5 else limit.value
  }

  /** `skip = (page - 1) * limit`: the rows before page `page`. */
  function Skip(page: int, limit: int): (skip: nat)
    requires page >= 1 && limit >= 1
    ensures skip == (page - 1) * limit
  {
    var p: nat := page - 1;
    var l: nat := limit;
    p * l
  }

  /** A paged answer: the rows of one page and the `pagination` block. */
  datatype Page<T> = Page(data: seq<T>, total: nat, page: int, limit: int, totalPages: nat)

  /** Page `page` (1-based) of `limit` rows is non-empty exactly when
      `1 <= page <= TotalPages(|s|, limit)`. */
  lemma WindowNonEmptyIff<T>(s: seq<T>, page: int, limit: int)
    requires page >= 1 && limit >= 1
    ensures |Window(s, (page - 1) * limit, limit)| > 0 <==> page <= TotalPages(|s|, limit)
  {
    var p := TotalPages(|s|, limit);
    if page <= p {
      assert (page - 1) * limit <= (p - 1) * limit;
    } else {
      assert p * limit <= (page - 1) * limit;
    }
  }

  /** Consecutive pages are adjacent: page `page + 1` starts where page `page` ends. */
  lemma SkipNext(page: int, limit: int)
    requires page >= 1 && limit >= 1
    ensures Skip(page + 1, limit) == Skip(page, limit) + limit
  {
    calc {
      Skip(page + 1, limit);
      page * limit;
      { assert page * limit == (page - 1) * limit + limit; }
      Skip(page, limit) + limit;
    }
  }

  /** `a <= b` scales by a non-negative factor. */
  lemma MulMonotone(a: int, b: int, c: int)
    requires a <= b && c >= 0
    ensures a * c <= b * c
  {
    assert b * c - a * c == (b - a) * c;
  }

  /** Row `i` lies between the start of its `limit`-block and the next one. */
  lemma DivBounds(i: int, limit: int)
    requires i >= 0 && limit >= 1
    ensures (i / limit) * limit <= i < (i / limit) * limit + limit
  {
    assert i == (i / limit) * limit + i % limit;
  }

  /** Page `q` holds the rows `Skip(q, limit)` up to `q * limit`, exclusive. */
  lemma PageEnd(q: int, limit: int)
    requires q >= 1 && limit >= 1
    ensures Skip(q, limit) + limit == q * limit
  {
  }

  /** Pages 1..TotalPages(|s|, limit) cover every row exactly once: row `i`
      is on page `i / limit + 1`, at its place in that page's window, and on
      no other page. */
  lemma RowOnOnePage<T>(s: seq<T>, limit: int, i: int)
    requires limit >= 1 && 0 <= i < |s|
    ensures var p := i / limit + 1;
      1 <= p <= TotalPages(|s|, limit) &&
      Skip(p, limit) <= i < Skip(p, limit) + limit &&
      Window(s, Skip(p, limit), limit)[i - Skip(p, limit)] == s[i]
    ensures forall q :: q >= 1 && Skip(q, limit) <= i < Skip(q, limit) + limit ==> q == i / limit + 1
  {
    var d := i / limit;
    var p := d + 1;
    var n := TotalPages(|s|, limit);
    DivBounds(i, limit);
    assert Skip(p, limit) == d * limit;
    PageEnd(p, limit);
    if p > n {
      MulMonotone(n, d, limit);
      assert false;
    }
    forall q | q >= 1 && Skip(q, limit) <= i < Skip(q, limit) + limit
      ensures q == p
    {
      PageEnd(q, limit);
      if q < p {
        MulMonotone(q, d, limit);
      } else if q > p {
        MulMonotone(p, q - 1, limit);
      }
    }
  }
}
