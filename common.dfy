/** Values shared by every module of the model: Java's nullable references,
    the clock, the String predicates the services use, decimal rendering and
    order-preserving filtering of query results. */
module Common {

  /** A Java reference that may be null. */
  datatype Option<T> = None | Some(value: T)

  /** `LocalDateTime` is modelled as whole seconds on one time line and
      `LocalDate` as a day number on the same line (day d covers the seconds
      d * SECONDS_PER_DAY up to the next day). */
  type Instant = int
  type Day = int

  const SECONDS_PER_MINUTE: int := 60
  const SECONDS_PER_HOUR: int := 3600
  const SECONDS_PER_DAY: int := 86400

  /** `LocalDateTime.toLocalDate()`: the day that contains `t`. */
  function DateOf(t: Instant): (d: Day)
    ensures d * SECONDS_PER_DAY <= t < d * SECONDS_PER_DAY + SECONDS_PER_DAY
  {
    t / SECONDS_PER_DAY
  }

  /** `withSecond(0).withNano(0)`: the start of the minute that contains `t`. */
  function TruncateToMinute(t: Instant): (r: Instant)
    ensures r <= t < r + SECONDS_PER_MINUTE
    ensures DateOf(r) == DateOf(t)
  {
    (t / SECONDS_PER_MINUTE) * SECONDS_PER_MINUTE
  }

  /** `Character.isWhitespace`: the ASCII controls TAB..CR and FS..US, the
      space, and the Unicode space, line and paragraph separators other than
      the three non-breaking ones. */
  predicate IsWhitespace(c: char) {
    ('\t' <= c <= '\r') || ('\U{1C}' <= c <= ' ') || c == '\U{1680}'
    || ('\U{2000}' <= c <= '\U{2006}') || ('\U{2008}' <= c <= '\U{200A}')
    || c == '\U{2028}' || c == '\U{2029}' || c == '\U{205F}' || c == '\U{3000}'
  }

  /** `String.isBlank()`: empty or white space only. */
  predicate IsBlank(s: string) {
    forall i :: 0 <= i < |s| ==> IsWhitespace(s[i])
  }

  /** The guard `s == null || s.isBlank()`. */
  predicate NullOrBlank(s: Option<string>) {
    s.None? || IsBlank(s.value)
  }

  /** The leading part of `String.trim()`: drops code points up to U+0020. */
  function TrimLeading(s: string): (r: string)
    ensures |r| <= |s| && r == s[|s| - |r|..]
    ensures r == [] || r[0] > ' '
    ensures forall i :: 0 <= i < |s| - |r| ==> s[i] <= ' '
  {
    if s != [] && s[0] <= ' ' then TrimLeading(s[1..]) else s
  }

  /** The trailing part of `String.trim()`. */
  function TrimTrailing(s: string): (r: string)
    ensures |r| <= |s| && r == s[..|r|]
    ensures r == [] || r[|r| - 1] > ' '
    ensures forall i :: |r| <= i < |s| ==> s[i] <= ' '
  {
    if s != [] && s[|s| - 1] <= ' ' then TrimTrailing(s[..|s| - 1]) else s
  }

  /** `String.trim()`. */
  function Trim(s: string): (r: string)
    ensures r == [] || (r[0] > ' ' && r[|r| - 1] > ' ')
    ensures r == [] <==> forall i :: 0 <= i < |s| ==> s[i] <= ' '
  {
    var l := TrimLeading(s);
    var r := TrimTrailing(l);
    assert r == [] ==> l == [];
    r
  }

  /** `String.length()`: the number of UTF-16 code units of a text, where a
      character beyond U+FFFF is a surrogate pair and counts twice. */
  function Utf16Length(s: string): (n: nat)
    ensures |s| <= n <= 2 * |s|
    ensures n == |s| <==> forall i :: 0 <= i < |s| ==> s[i] as int < 0x1_0000
  {
    if s == [] then 0
    else
      var n := Utf16Length(s[1..]);
      assert forall i :: 0 < i < |s| ==> s[i] == s[1..][i - 1];
      (if s[0] as int < 0x1_0000 then 1 else 2) + n
  }

  /** The guard `s == null || s.trim().isEmpty()`. */
  predicate NullOrTrimEmpty(s: Option<string>) {
    s.None? || Trim(s.value) == []
  }

  /** ASCII case folding (`Character.toLowerCase` on the letters A-Z). */
  function LowerChar(c: char): (r: char)
    ensures 'A' <= c <= 'Z' ==> 'a' <= r <= 'z'
    ensures !('A' <= c <= 'Z') ==> r == c
  {
    if 'A' <= c <= 'Z' then (c as int + 32) as char else c
  }

  /** `String.toLowerCase()` restricted to ASCII letters. */
  function Lower(s: string): (r: string)
    ensures |r| == |s| && forall i :: 0 <= i < |s| ==> r[i] == LowerChar(s[i])
  {
    seq(|s|, i requires 0 <= i < |s| => LowerChar(s[i]))
  }

  /** `String.equalsIgnoreCase` for ASCII text. */
  predicate EqualsIgnoreCase(a: string, b: string) {
    Lower(a) == Lower(b)
  }

  /** `String.contains` of a single character. */
  predicate HasChar(s: string, c: char) {
    exists i :: 0 <= i < |s| && s[i] == c
  }

  /** `title LIKE %keyword%` after upper-casing both sides (ASCII). */
  predicate ContainsIgnoreCase(text: string, keyword: string) {
    exists i :: 0 <= i <= |text| - |keyword| && OccursAt(Lower(text), Lower(keyword), i)
  }

  predicate OccursAt(text: string, part: string, i: int)
    requires 0 <= i <= |text| - |part|
  {
    text[i..i + |part|] == part
  }

  function DigitChar(d: nat): (c: char)
    requires d < 10
    ensures '0' <= c <= '9'
  {
    ('0' as int + d) as char
  }

  /** Decimal rendering of a natural number, most significant digit first. */
  function NatText(n: nat): (r: string)
    ensures |r| >= 1 && forall i :: 0 <= i < |r| ==> '0' <= r[i] <= '9'
    ensures n > 0 ==> r[0] != '0'
  {
    if n < 10 then [DigitChar(n)] else NatText(n / 10) + [DigitChar(n % 10)]
  }

  /** `Integer.toString`. */
  function IntText(n: int): string {
    if n < 0 then "-" + NatText(-n) else NatText(n)
  }

  /** The value of a string of decimal digits. */
  function DigitsValue(s: string): nat
    requires forall i :: 0 <= i < |s| ==> '0' <= s[i] <= '9'
  {
    if s == [] then 0 else DigitsValue(s[..|s| - 1]) * 10 + (s[|s| - 1] as int - '0' as int)
  }

  lemma {:induction false} NatTextValue(n: nat)
    ensures DigitsValue(NatText(n)) == n
  {
    if n >= 10 {
      NatTextValue(n / 10);
      var t := NatText(n);
      assert t[..|t| - 1] == NatText(n / 10);
    }
  }

  lemma {:induction false} NatTextLength(n: nat, k: nat)
    requires Pow10(k) <= n < Pow10(k + 1)
    ensures |NatText(n)| == k + 1
  {
    if k > 0 {
      NatTextLength(n / 10, k - 1);
    }
  }

  /** Ten to the power `k`, written as a one followed by `k` zeros. */
  function Pow10(k: nat): (p: nat)
    ensures p >= 1
    ensures NatText(p) == ['1'] + seq(k, _ => '0')
  {
    if k == 0 then 1
    else
      var q := Pow10(k - 1);
      assert NatText(10 * q) == NatText(q) + ['0'];
      assert seq(k - 1, _ => '0') + ['0'] == seq(k, _ => '0');
      10 * q
  }

  /** The elements of `s` that satisfy `p`, in their original order (a query
      result over a table). */
  function Filter<T>(s: seq<T>, p: T -> bool): (r: seq<T>)
    ensures |r| <= |s|
    ensures forall i :: 0 <= i < |r| ==> r[i] in s && p(r[i])
    ensures forall i :: 0 <= i < |s| && p(s[i]) ==> s[i] in r
  {
    if s == [] then [] else (if p(s[0]) then [s[0]] else []) + Filter(s[1..], p)
  }

  lemma {:induction false} FilterAll<T>(s: seq<T>, p: T -> bool)
    requires forall i :: 0 <= i < |s| ==> p(s[i])
    ensures Filter(s, p) == s
  {
    if s != [] {
      FilterAll(s[1..], p);
    }
  }

  lemma {:induction false} FilterNone<T>(s: seq<T>, p: T -> bool)
    ensures Filter(s, p) == [] <==> forall i :: 0 <= i < |s| ==> !p(s[i])
  {
    if s != [] {
      FilterNone(s[1..], p);
      assert forall i :: 1 <= i < |s| ==> s[i] == s[1..][i - 1];
    }
  }

  lemma {:induction false} FilterConj<T>(s: seq<T>, p: T -> bool, q: T -> bool)
    ensures Filter(Filter(s, p), q) == Filter(s, x => p(x) && q(x))
  {
    if s != [] {
      FilterConj(s[1..], p, q);
      FilterAppend((if p(s[0]) then [s[0]] else []), Filter(s[1..], p), q);
    }
  }

  /** Filtering by `p` and then by `q` is filtering by any `r` that agrees
      with their conjunction. */
  lemma FilterBoth<T>(s: seq<T>, p: T -> bool, q: T -> bool, r: T -> bool)
    requires forall i :: 0 <= i < |s| ==> r(s[i]) == (p(s[i]) && q(s[i]))
    ensures Filter(Filter(s, p), q) == Filter(s, r)
  {
    FilterConj(s, p, q);
    FilterSame(s, x => p(x) && q(x), r);
  }

  /** Filtering keeps exactly the occurrences of the elements that pass. */
  lemma {:induction false} FilterCount<T>(s: seq<T>, p: T -> bool, x: T)
    ensures multiset(Filter(s, p))[x] == if p(x) then multiset(s)[x] else 0
  {
    if s != [] {
      FilterCount(s[1..], p, x);
      assert s == [s[0]] + s[1..];
      assert multiset(s) == multiset([s[0]]) + multiset(s[1..]);
    }
  }

  /** Lists with the same elements, counted, filter to lists with the same
      elements. */
  lemma FilterKeepsMultiset<T>(a: seq<T>, b: seq<T>, p: T -> bool)
    requires multiset(a) == multiset(b)
    ensures multiset(Filter(a, p)) == multiset(Filter(b, p))
  {
    forall x ensures multiset(Filter(a, p))[x] == multiset(Filter(b, p))[x] {
      FilterCount(a, p, x);
      FilterCount(b, p, x);
    }
  }

  lemma {:induction false} FilterAppend<T>(a: seq<T>, b: seq<T>, p: T -> bool)
    ensures Filter(a + b, p) == Filter(a, p) + Filter(b, p)
  {
    if a != [] {
      FilterAppend(a[1..], b, p);
      assert (a + b)[1..] == a[1..] + b;
    } else {
      assert a + b == b;
    }
  }

  lemma {:induction false} FilterSame<T>(s: seq<T>, p: T -> bool, q: T -> bool)
    requires forall i :: 0 <= i < |s| ==> p(s[i]) == q(s[i])
    ensures Filter(s, p) == Filter(s, q)
  {
    if s != [] {
      FilterSame(s[1..], p, q);
    }
  }

  /** `s` is in ascending order of `key`. */
  predicate SortedBy<T>(s: seq<T>, key: T -> int) {
    forall i, j :: 0 <= i < j < |s| ==> key(s[i]) <= key(s[j])
  }

  /** The tail of a sorted sequence is sorted and bounded below by its head. */
  lemma TailSorted<T>(s: seq<T>, key: T -> int)
    requires s != [] && SortedBy(s, key)
    ensures SortedBy(s[1..], key)
    ensures forall i :: 0 <= i < |s| - 1 ==> key(s[0]) <= key(s[1..][i])
  {
    var tail := s[1..];
    forall i, j | 0 <= i < j < |tail| ensures key(tail[i]) <= key(tail[j]) {
      assert tail[i] == s[i + 1] && tail[j] == s[j + 1];
    }
    forall i | 0 <= i < |tail| ensures key(s[0]) <= key(tail[i]) {
      assert tail[i] == s[i + 1];
    }
  }

  /** A head no greater than a sorted tail gives a sorted sequence. */
  lemma ConsSorted<T>(h: T, t: seq<T>, key: T -> int)
    requires SortedBy(t, key)
    requires forall i :: 0 <= i < |t| ==> key(h) <= key(t[i])
    ensures SortedBy([h] + t, key)
  {
    var r := [h] + t;
    forall i, j | 0 <= i < j < |r| ensures key(r[i]) <= key(r[j]) {
      assert r[j] == t[j - 1];
      if i > 0 {
        assert r[i] == t[i - 1];
      }
    }
  }

  /** Every element of `t` is `x` or an element of `s`, so a bound below both
      bounds `t`. */
  lemma BoundKept<T>(b: int, x: T, s: seq<T>, t: seq<T>, key: T -> int)
    requires multiset(t) == multiset(s) + multiset{x}
    requires b <= key(x) && forall i :: 0 <= i < |s| ==> b <= key(s[i])
    ensures forall i :: 0 <= i < |t| ==> b <= key(t[i])
  {
    forall i | 0 <= i < |t| ensures b <= key(t[i]) {
      assert t[i] in multiset(t);
      assert t[i] == x || t[i] in multiset(s);
    }
  }

  /** Puts `x` in front of the first element of `s` whose key is not below
      its own, so `x` precedes the elements with an equal key. */
  function InsertBy<T>(x: T, s: seq<T>, key: T -> int): (r: seq<T>)
    requires SortedBy(s, key)
    ensures SortedBy(r, key)
    ensures multiset(r) == multiset(s) + multiset{x}
  {
    if s == [] || key(x) <= key(s[0]) then
      ConsSorted(x, s, key);
      [x] + s
    else
      TailSorted(s, key);
      var t := InsertBy(x, s[1..], key);
      BoundKept(key(s[0]), x, s[1..], t, key);
      ConsSorted(s[0], t, key);
      assert s == [s[0]] + s[1..];
      [s[0]] + t
  }

  /** The stable insertion sort that `Stream.sorted` and an `ORDER BY` clause
      both stand for here: ascending in `key`, equal keys in input order. */
  function SortBy<T>(s: seq<T>, key: T -> int): (r: seq<T>)
    ensures SortedBy(r, key)
    ensures multiset(r) == multiset(s)
    ensures |r| == |s|
  {
    if s == [] then []
    else
      assert s == [s[0]] + s[1..];
      InsertBy(s[0], SortBy(s[1..], key), key)
  }

  /** Filtering keeps an order. */
  lemma {:induction false} FilterSorted<T>(s: seq<T>, p: T -> bool, key: T -> int)
    requires SortedBy(s, key)
    ensures SortedBy(Filter(s, p), key)
  {
    if s != [] {
      var tail := s[1..];
      TailSorted(s, key);
      FilterSorted(tail, p, key);
      var rest := Filter(tail, p);
      forall i | 0 <= i < |rest| ensures key(s[0]) <= key(rest[i]) {
        var j :| 0 <= j < |tail| && tail[j] == rest[i];
      }
      if p(s[0]) {
        ConsSorted(s[0], rest, key);
        assert Filter(s, p) == [s[0]] + rest;
      } else {
        assert Filter(s, p) == rest;
      }
    }
  }

  /** Sorting keeps the elements. */
  lemma SortByMembers<T>(s: seq<T>, key: T -> int)
    ensures forall t :: t in SortBy(s, key) <==> t in s
  {
    var r := SortBy(s, key);
    forall t ensures t in r <==> t in s {
      assert t in r <==> t in multiset(r);
      assert t in s <==> t in multiset(s);
    }
  }

  /** `Stream.limit(n)`: the first `n` elements, or all of them. */
  function Take<T>(s: seq<T>, n: nat): (r: seq<T>)
    ensures |r| == if n < |s| then n else |s|
    ensures r == s[..|r|]
  {
    if n < |s| then s[..n] else s
  }

  /** A value stored in an `HttpSession`: an `Integer` or a `String`. */
  datatype Attribute = Number(n: int) | Text(s: string)

  /** `HttpSession`: named attributes of one browser session. */
  class Session {
    var attributes: map<string, Attribute>

    constructor ()
      ensures attributes == map[]
    {
      attributes := map[];
    }
  }

  /** `HttpSession.setAttribute(key, v)`; a null value removes the attribute,
      as the servlet API specifies. */
  function SetAttribute(attrs: map<string, Attribute>, key: string, v: Option<Attribute>): (r: map<string, Attribute>)
    ensures key in r <==> v.Some?
    ensures v.Some? ==> r[key] == v.value
    ensures forall k :: k != key ==> (k in r <==> k in attrs)
    ensures forall k :: k != key && k in r ==> r[k] == attrs[k]
  {
    if v.Some? then attrs[key := v.value] else attrs - {key}
  }

  /** A nullable `Integer` as a session value. */
  function NumberValue(n: Option<int>): Option<Attribute> {
    if n.Some? then Some(Number(n.value)) else None
  }

  /** A nullable `String` as a session value. */
  function TextValue(s: Option<string>): Option<Attribute> {
    if s.Some? then Some(Text(s.value)) else None
  }

  /** The Java exception classes that escape the services. */
  datatype ExceptionKind =
    | RuntimeException
    | IllegalStateException
    | NullPointerException
    | DataIntegrityViolation
    | IllegalArgumentException
    /** Spring's translation of an `IllegalArgumentException` raised inside a
        repository call, such as `findById(null)`. */
    | InvalidDataAccessApiUsage

  /** An exception thrown out of an operation: its class and its message. */
  datatype Thrown = Thrown(kind: ExceptionKind, message: string)

  /** The message of the `RuntimeException` either mail gateway throws when
      a message cannot be sent. */
  const SEND_FAILED: string := "Failed to send email."
}
