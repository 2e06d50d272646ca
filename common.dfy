/** Helpers shared by every module: optional values, the outcome of a network
    call, user-visible notifications, and the few JavaScript string and array
    operations the pages rely on (trim, truthiness, length in UTF-16 code units,
    substring search, filter). */
module Common {

  /** A value that may be absent (`undefined` / `null`). */
  datatype Option<+T> = None | Some(value: T) {
    /** `x ?? d`, and `x || d` when the value cannot be falsy. */
    function GetOr(default: T): T {
      match this
      case Some(v) => v
      case None => default
    }
  }

  /** How a remote call ended: the response body, or a failure with the
      message the error object carried (if any). */
  datatype Reply<+T> = Ok(body: T) | Failed(message: Option<string>)

  /** What an awaited call gives back to its caller: a value, or a thrown
      `Error` with its message. */
  datatype Outcome<+T> = Returned(value: T) | Thrown(message: string)

  /** A notification shown to the user (`toast.success` / `toast.error`). */
  datatype Toast = SuccessToast(text: string) | ErrorToast(text: string)

  // ---------------------------------------------------------------------------
  // Strings

  /** The characters `String.prototype.trim` removes: WhiteSpace and
      LineTerminator of ECMAScript (section 12.2 and 12.3 of ECMA-262). */
  predicate IsJsSpace(c: char) {
    c == '\t' || c == '\n' || c == '\U{000B}' || c == '\U{000C}' || c == '\r' ||
    c == ' ' || c == '\U{00A0}' || c == '\U{1680}' || ('\U{2000}' <= c <= '\U{200A}') ||
    c == '\U{2028}' || c == '\U{2029}' || c == '\U{202F}' || c == '\U{205F}' ||
    c == '\U{3000}' || c == '\U{FEFF}'
  }

  /** Every character is white space (the empty string included). */
  predicate IsBlank(s: string) {
    forall i :: 0 <= i < |s| ==> IsJsSpace(s[i])
  }

  /** The string with its leading white space removed. */
  function TrimStart(s: string): (r: string)
    ensures |r| <= |s| && r == s[|s| - |r|..]
    ensures r == [] || !IsJsSpace(r[0])
    ensures forall i :: 0 <= i < |s| - |r| ==> IsJsSpace(s[i])
  {
    if s != [] && IsJsSpace(s[0]) then TrimStart(s[1..]) else s
  }

  /** The string with its trailing white space removed. */
  function TrimEnd(s: string): (r: string)
    ensures |r| <= |s| && r == s[..|r|]
    ensures r == [] || !IsJsSpace(r[|r| - 1])
    ensures forall i :: |r| <= i < |s| ==> IsJsSpace(s[i])
  {
    if s != [] && IsJsSpace(s[|s| - 1]) then TrimEnd(s[..|s| - 1]) else s
  }

  /** Every character of `s` outside positions `a` to `b` is white space. */
  predicate SpacesOutside(s: string, a: int, b: int) {
    forall i :: 0 <= i < |s| && !(a <= i < b) ==> IsJsSpace(s[i])
  }

  /** `s.trim()`: neither starts nor ends with white space, and is empty
      exactly when `s` is blank. */
  function Trim(s: string): (r: string)
    ensures r == [] || (!IsJsSpace(r[0]) && !IsJsSpace(r[|r| - 1]))
    ensures r == [] <==> IsBlank(s)
  {
    var t := TrimStart(s);
    var r := TrimEnd(t);
    assert r != [] ==> r[0] == t[0];
    assert r == [] ==> t == [];
    r
  }

  /** What `trim` removes is white space at the two ends only: the result
      occurs in `s` with nothing but white space around it. */
  lemma TrimWithinSpaces(s: string)
    ensures exists a :: OccursAt(s, Trim(s), a) && SpacesOutside(s, a, a + |Trim(s)|)
  {
    var t := TrimStart(s);
    var r := TrimEnd(t);
    var a := |s| - |t|;
    assert r == s[a..][..|r|];
    assert r == s[a..a + |r|];
    assert OccursAt(s, r, a);
    assert SpacesOutside(s, a, a + |r|);
    assert Trim(s) == r;
  }

  /** A string that neither starts nor ends with white space is its own trim. */
  lemma TrimUnpadded(s: string)
    requires s != [] && !IsJsSpace(s[0]) && !IsJsSpace(s[|s| - 1])
    ensures Trim(s) == s
  {
    assert TrimStart(s) == s;
    assert TrimEnd(s) == s;
  }

  /** Trimming twice is trimming once. */
  lemma {:induction false} TrimIdempotent(s: string)
    ensures Trim(Trim(s)) == Trim(s)
  {
    var r := Trim(s);
    assert TrimStart(r) == r;
    assert TrimEnd(r) == r;
  }

  /** JavaScript truthiness of a string: only the empty string is falsy. */
  predicate Truthy(s: string) {
    s != []
  }

  /** `message || fallback` for a message that may be absent or empty. */
  function OrElse(message: Option<string>, fallback: string): (r: string)
    ensures message.Some? && Truthy(message.value) ==> r == message.value
    ensures message.None? || !Truthy(message.value) ==> r == fallback
    ensures Truthy(fallback) ==> Truthy(r)
  {
    if message.Some? && Truthy(message.value) then message.value else fallback
  }

  /** `s.length`: JavaScript strings count UTF-16 code units, so a character
      outside the Basic Multilingual Plane counts twice. */
  function Utf16Length(s: string): (n: nat)
    ensures |s| <= n <= 2 * |s|
    ensures n == 0 <==> s == []
  {
    if s == [] then 0
    else (if s[0] as int > 0xFFFF then 2 else 1) + Utf16Length(s[1..])
  }

  /** `needle` occurs in `hay` starting at position `i`. */
  predicate OccursAt(hay: string, needle: string, i: int) {
    0 <= i && i + |needle| <= |hay| && hay[i..i + |needle|] == needle
  }

  /** `hay.includes(needle)`, scanning from the left. */
  function Includes(hay: string, needle: string): bool
    decreases |hay|
  {
    needle <= hay || (hay != [] && Includes(hay[1..], needle))
  }

  /** `Includes` holds exactly when the needle occurs at some position; the
      empty needle occurs everywhere. */
  lemma {:induction false} IncludesIff(hay: string, needle: string)
    ensures Includes(hay, needle) <==> exists i :: OccursAt(hay, needle, i)
    decreases |hay|
  {
    if needle <= hay {
      assert OccursAt(hay, needle, 0);
    } else if hay == [] {
      assert needle != [];
    } else {
      IncludesIff(hay[1..], needle);
      if Includes(hay[1..], needle) {
        var i :| OccursAt(hay[1..], needle, i);
        assert hay[1..][i..i + |needle|] == hay[i + 1..i + 1 + |needle|];
        assert OccursAt(hay, needle, i + 1);
      } else {
        forall i | 0 < i && OccursAt(hay, needle, i) ensures false {
          assert hay[1..][i - 1..i - 1 + |needle|] == hay[i..i + |needle|];
          assert OccursAt(hay[1..], needle, i - 1);
        }
      }
    }
  }

  /** Every string includes the empty string. */
  lemma IncludesEmpty(hay: string)
    ensures Includes(hay, [])
  {
  }

  /** The string with every character sent through a character mapping
      (used for `toLowerCase`). */
  function Lowered(s: string, lower: char -> char): (r: string)
    ensures |r| == |s|
    ensures forall i :: 0 <= i < |s| ==> r[i] == lower(s[i])
  {
    seq(|s|, i requires 0 <= i < |s| => lower(s[i]))
  }

  // ---------------------------------------------------------------------------
  // Sequences

  /** `a` is obtained from `b` by deleting elements, order preserved. */
  ghost predicate Subsequence<T>(a: seq<T>, b: seq<T>)
    decreases |b|
  {
    if a == [] then true
    else if b == [] then false
    else (a[0] == b[0] && Subsequence(a[1..], b[1..])) || Subsequence(a, b[1..])
  }

  /** `s.filter(p)`: the elements satisfying `p`, in their original order. */
  function Filter<T>(s: seq<T>, p: T -> bool): (r: seq<T>)
    ensures forall x :: x in r ==> p(x)
    ensures forall i :: 0 <= i < |s| && p(s[i]) ==> s[i] in r
    ensures Subsequence(r, s)
  {
    if s == [] then []
    else
      var rest := Filter(s[1..], p);
      if p(s[0]) then
        assert ([s[0]] + rest)[1..] == rest;
        [s[0]] + rest
      else rest
  }

  /** Membership in a filtered sequence: exactly the members satisfying `p`. */
  lemma FilterMember<T>(s: seq<T>, p: T -> bool)
    ensures forall x :: x in Filter(s, p) <==> x in s && p(x)
  {
    SubsequenceMember(Filter(s, p), s);
  }

  /** Filtering by `p` and then by a stronger `q` is filtering by `q` alone. */
  lemma {:induction false} FilterOfFilter<T>(s: seq<T>, p: T -> bool, q: T -> bool)
    requires forall x :: q(x) ==> p(x)
    ensures Filter(Filter(s, p), q) == Filter(s, q)
  {
    if s != [] {
      FilterOfFilter(s[1..], p, q);
      if p(s[0]) {
        assert ([s[0]] + Filter(s[1..], p))[1..] == Filter(s[1..], p);
      }
    }
  }

  lemma {:induction false} SubsequenceMember<T>(a: seq<T>, b: seq<T>)
    requires Subsequence(a, b)
    ensures forall x :: x in a ==> x in b
    decreases |b|
  {
    if a != [] {
      if a[0] == b[0] && Subsequence(a[1..], b[1..]) {
        SubsequenceMember(a[1..], b[1..]);
        assert forall x :: x in a ==> x == a[0] || x in a[1..];
      } else {
        SubsequenceMember(a, b[1..]);
      }
    }
  }

  /** The filter keeps every copy of each element it keeps: its multiset is
      that of the input restricted to the elements satisfying `p`. */
  lemma {:induction false} FilterMultiset<T>(s: seq<T>, p: T -> bool, x: T)
    ensures multiset(Filter(s, p))[x] == if p(x) then multiset(s)[x] else 0
  {
    if s != [] {
      FilterMultiset(s[1..], p, x);
      assert s == [s[0]] + s[1..];
      assert multiset(s)[x] == multiset([s[0]])[x] + multiset(s[1..])[x];
      if p(s[0]) {
        assert Filter(s, p) == [s[0]] + Filter(s[1..], p);
        assert multiset(Filter(s, p))[x] == multiset([s[0]])[x] + multiset(Filter(s[1..], p))[x];
      }
    }
  }

  /** A filter that rejects nothing leaves the sequence as it was. */
  lemma {:induction false} FilterKeepsAll<T>(s: seq<T>, p: T -> bool)
    requires forall i :: 0 <= i < |s| ==> p(s[i])
    ensures Filter(s, p) == s
  {
    if s != [] {
      FilterKeepsAll(s[1..], p);
    }
  }

  // ---------------------------------------------------------------------------
  // Arithmetic

  /** `Math.ceil(n / d)` for a non-negative integer and a positive divisor. */
  function CeilDiv(n: nat, d: nat): (r: nat)
    requires d > 0
    ensures r == 0 <==> n == 0
  {
    if n % d == 0 then n / d else n / d + 1
  }

  /** The ceiling is the least number of groups of `d` that hold `n`: they
      hold it, and one group fewer would not.  Kept apart from `CeilDiv` so
      that callers do not carry products in their context. */
  lemma CeilDivBounds(n: nat, d: nat)
    requires d > 0
    ensures n <= CeilDiv(n, d) * d
    ensures n > 0 ==> (CeilDiv(n, d) - 1) * d < n
  {
    assert n == (n / d) * d + n % d;
    if n % d != 0 {
      assert (n / d + 1) * d == (n / d) * d + d;
    }
  }

  /** When `k` full groups of `d` are present, the ceiling is exactly `k`. */
  lemma CeilDivExact(k: nat, d: nat)
    requires d > 0
    ensures CeilDiv(k * d, d) == k
  {
    var r := CeilDiv(k * d, d);
    CeilDivBounds(k * d, d);
    MulCancel(k, r, d);
    assert k <= r;
    if k > 0 {
      assert k * d > 0;
      MulCancel(k, r - 1, d);
      assert r <= k;
    } else {
      assert k * d == 0;
    }
  }

  /** Multiplying by a positive number keeps `<=` in both directions. */
  lemma MulCancel(a: int, b: int, d: int)
    requires d > 0
    ensures a * d <= b * d <==> a <= b
  {
    if a <= b {
      assert b * d == a * d + (b - a) * d;
    } else {
      assert a * d == b * d + (a - b) * d;
    }
  }

  function Min(a: int, b: int): int { if a <= b then a else b }
  function Max(a: int, b: int): int { if a >= b then a else b }
}
