/** Text operations the stores and the manifests rely on: surrounding space, and the order of strings. */
module Text {
  /** The characters that trimming removes. */
  predicate IsSpace(c: char) {
    || c in {'\t', '\n', '\U{0B}', '\U{0C}', '\r', ' ', '\U{85}', '\U{A0}', '\U{1680}'}
    || '\U{2000}' <= c <= '\U{200A}'
    || c in {'\U{2028}', '\U{2029}', '\U{202F}', '\U{205F}', '\U{3000}'}
  }

  predicate Blank(s: string) { forall i :: 0 <= i < |s| ==> IsSpace(s[i]) }

  predicate HasPrefix(s: string, prefix: string) { |prefix| <= |s| && s[..|prefix|] == prefix }

  function AsciiLower(c: char): char { if 'A' <= c <= 'Z' then (c as int + 32) as char else c }

  predicate Trimmed(s: string) { s != "" ==> !IsSpace(s[0]) && !IsSpace(s[|s| - 1]) }

  /** `s` without its leading and trailing spaces. */
  function Trim(s: string): (r: string)
    ensures Trimmed(r) && |r| <= |s|
    ensures r == "" <==> Blank(s)
    ensures Trimmed(s) ==> r == s
  {
    if s == "" then s
    else if IsSpace(s[0]) then
      assert Blank(s) <==> Blank(s[1..]) by { assert s == [s[0]] + s[1..]; }
      Trim(s[1..])
    else if IsSpace(s[|s| - 1]) then Trim(s[..|s| - 1])
    else s
  }
}

/** Strict orders, and the one sequence that lists a set in order. */
module Order {
  /** Strings compared code point by code point. */
  predicate Less(a: string, b: string) {
    if b == "" then false
    else if a == "" then true
    else a[0] < b[0] || (a[0] == b[0] && Less(a[1..], b[1..]))
  }

  lemma {:induction false} LessTotal(a: string, b: string)
    ensures Less(a, b) || a == b || Less(b, a)
  {
    if a != "" && b != "" && a[0] == b[0] {
      LessTotal(a[1..], b[1..]);
      assert a == [a[0]] + a[1..] && b == [b[0]] + b[1..];
    }
  }

  lemma {:induction false} LessTransitive(a: string, b: string, c: string)
    requires Less(a, b) && Less(b, c)
    ensures Less(a, c)
  {
    if a != "" && a[0] == b[0] == c[0] { LessTransitive(a[1..], b[1..], c[1..]); }
  }

  lemma {:induction false} LessIrreflexive(a: string)
    ensures !Less(a, a)
  {
    if a != "" { LessIrreflexive(a[1..]); }
  }

  /** The order is decided by the first difference, and where there is none the shorter string comes first. */
  lemma {:induction false} LessIff(a: string, b: string)
    ensures Less(a, b) <==>
            exists i :: 0 <= i <= |a| && i < |b| && a[..i] == b[..i] && (i < |a| ==> a[i] < b[i])
  {
    if a != "" && b != "" {
      var p, q := a[1..], b[1..];
      LessIff(p, q);
      assert a == [a[0]] + p && b == [b[0]] + q;
      if Less(a, b) && a[0] == b[0] {
        var i :| 0 <= i <= |p| && i < |q| && p[..i] == q[..i] && (i < |p| ==> p[i] < q[i]);
        assert a[..i + 1] == [a[0]] + p[..i] && b[..i + 1] == [b[0]] + q[..i];
      } else if a[0] < b[0] {
        assert a[..0] == b[..0];
      }
      if i :| 0 <= i <= |a| && i < |b| && a[..i] == b[..i] && (i < |a| ==> a[i] < b[i]) {
        if i > 0 {
          assert a[0] == a[..i][0] == b[..i][0];
          assert p[..i - 1] == a[..i][1..] == b[..i][1..] == q[..i - 1];
        }
      }
    } else if b != "" {
      assert a[..0] == b[..0];
    }
  }

  ghost predicate StrictOrder<T(!new)>(less: (T, T) -> bool) {
    && (forall a :: !less(a, a))
    && (forall a, b, c :: less(a, b) && less(b, c) ==> less(a, c))
  }

  lemma StringsOrdered()
    ensures StrictOrder(Less)
    ensures forall a, b :: Less(a, b) || a == b || Less(b, a)
  {
    forall a ensures !Less(a, a) { LessIrreflexive(a); }
    forall a, b ensures Less(a, b) || a == b || Less(b, a) { LessTotal(a, b); }
    forall a, b, c | Less(a, b) && Less(b, c) ensures Less(a, c) { LessTransitive(a, b, c); }
  }

  ghost predicate Ascending<T>(less: (T, T) -> bool, s: seq<T>) {
    forall i, j :: 0 <= i < j < |s| ==> less(s[i], s[j])
  }

  /** Any two elements are in order one way or the other. */
  ghost predicate Comparable<T>(less: (T, T) -> bool, s: seq<T>) {
    forall i, j :: 0 <= i < j < |s| ==> less(s[i], s[j]) || less(s[j], s[i])
  }

  /** Two strictly ascending sequences with the same elements are the same sequence. */
  lemma {:induction false} AscendingUnique<T(!new)>(less: (T, T) -> bool, a: seq<T>, b: seq<T>)
    requires StrictOrder(less) && Ascending(less, a) && Ascending(less, b)
    requires forall x :: x in a <==> x in b
    ensures a == b
  {
    assert b != [] ==> b[0] in a;
    if a != [] {
      assert a[0] in b;
      var i :| 0 <= i < |b| && b[i] == a[0];
      var j :| 0 <= j < |a| && a[j] == b[0];
      assert i == 0;
      forall x ensures x in a[1..] <==> x in b[1..] {
        assert x in a <==> x == a[0] || x in a[1..];
        assert x in b <==> x == b[0] || x in b[1..];
        assert x in a[1..] ==> x != a[0];
        assert x in b[1..] ==> x != b[0];
      }
      AscendingUnique(less, a[1..], b[1..]);
      assert a == [a[0]] + a[1..] && b == [b[0]] + b[1..];
    }
  }

  /** `s` with `x` put in its place. */
  function Insert<T(!new)>(less: (T, T) -> bool, x: T, s: seq<T>): (r: seq<T>)
    requires StrictOrder(less) && Ascending(less, s) && forall y <- s :: less(x, y) || less(y, x)
    ensures Ascending(less, r) && |r| == |s| + 1 && forall y :: y in r <==> y == x || y in s
  {
    if s == [] then [x]
    else if less(x, s[0]) then [x] + s
    else
      assert s == [s[0]] + s[1..];
      var rest := Insert(less, x, s[1..]);
      assert forall y <- rest :: less(s[0], y);
      [s[0]] + rest
  }

  /** The elements of `s` in ascending order. */
  function Sort<T(!new)>(less: (T, T) -> bool, s: seq<T>): (r: seq<T>)
    requires StrictOrder(less) && Comparable(less, s)
    ensures Ascending(less, r) && |r| == |s| && forall y :: y in r <==> y in s
  {
    if s == [] then []
    else
      assert s == [s[0]] + s[1..];
      assert forall y <- s[1..] :: less(s[0], y) || less(y, s[0]);
      Insert(less, s[0], Sort(less, s[1..]))
  }
}
