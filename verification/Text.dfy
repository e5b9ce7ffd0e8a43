/** Ordered text: the byte order on strings, decimal numerals, sorting, and the
    shapes of the references the health documents carry. */
module Text {

  // ---------------------------------------------------------------------
  // Lexicographic order
  // ---------------------------------------------------------------------

  predicate Less(a: string, b: string) {
    if b == "" then false
    else if a == "" then true
    else a[0] < b[0] || (a[0] == b[0] && Less(a[1..], b[1..]))
  }

  lemma {:induction false} LessAsymmetric(a: string, b: string)
    requires Less(a, b)
    ensures !Less(b, a)
  {
    if a != "" && a[0] == b[0] { LessAsymmetric(a[1..], b[1..]); }
  }

  lemma {:induction false} LessTotal(a: string, b: string)
    ensures a == b || Less(a, b) || Less(b, a)
  {
    if a != "" && b != "" && a[0] == b[0] {
      LessTotal(a[1..], b[1..]);
      if a[1..] == b[1..] {
        assert a == [a[0]] + a[1..] && b == [b[0]] + b[1..];
      }
    }
  }

  lemma {:induction false} LessTransitive(a: string, b: string, c: string)
    requires !Less(a, b) && !Less(b, c)
    ensures !Less(a, c)
  {
    if a != "" && b != "" && c != "" && a[0] == b[0] == c[0] {
      LessTransitive(a[1..], b[1..], c[1..]);
    }
  }

  // ---------------------------------------------------------------------
  // Sorting by a strict weak order
  // ---------------------------------------------------------------------

  ghost predicate StrictWeak<T(!new)>(before: (T, T) -> bool) {
    && (forall a, b :: before(a, b) ==> !before(b, a))
    && (forall a, b, c :: !before(a, b) && !before(b, c) ==> !before(a, c))
  }

  lemma LessIsStrictWeak()
    ensures StrictWeak(Less)
  {
    forall a, b | Less(a, b) ensures !Less(b, a) { LessAsymmetric(a, b); }
    forall a, b, c | !Less(a, b) && !Less(b, c) ensures !Less(a, c) { LessTransitive(a, b, c); }
  }

  ghost predicate Sorted<T>(before: (T, T) -> bool, s: seq<T>) {
    forall i: nat, j: nat :: i < j < |s| ==> !before(s[j], s[i])
  }

  ghost predicate StrictlySorted<T>(before: (T, T) -> bool, s: seq<T>) {
    forall i: nat, j: nat :: i < j < |s| ==> before(s[i], s[j])
  }

  function Insert<T>(before: (T, T) -> bool, x: T, s: seq<T>): (r: seq<T>)
    ensures multiset(r) == multiset(s) + multiset{x}
  {
    if s == [] || before(x, s[0]) then [x] + s
    else
      assert s == [s[0]] + s[1..];
      [s[0]] + Insert(before, x, s[1..])
  }

  function SortBy<T>(before: (T, T) -> bool, s: seq<T>): (r: seq<T>)
    ensures multiset(r) == multiset(s)
  {
    if s == [] then []
    else
      assert s == [s[0]] + s[1..];
      Insert(before, s[0], SortBy(before, s[1..]))
  }

  lemma {:induction false} InsertSorts<T(!new)>(before: (T, T) -> bool, x: T, s: seq<T>)
    requires StrictWeak(before) && Sorted(before, s)
    ensures Sorted(before, Insert(before, x, s))
  {
    var r := Insert(before, x, s);
    if s == [] {
    } else if before(x, s[0]) {
      forall i: nat, j: nat | i < j < |r| ensures !before(r[j], r[i]) {
        if i == 0 && j > 1 { assert !before(s[j - 1], s[0]) && !before(s[0], x); }
      }
    } else {
      var tail := Insert(before, x, s[1..]);
      InsertSorts(before, x, s[1..]);
      forall i: nat, j: nat | i < j < |r| ensures !before(r[j], r[i]) {
        if i == 0 {
          assert tail[j - 1] in multiset(tail);
          assert tail[j - 1] == x || tail[j - 1] in s[1..];
        }
      }
    }
  }

  lemma {:induction false} SortSorts<T(!new)>(before: (T, T) -> bool, s: seq<T>)
    requires StrictWeak(before)
    ensures Sorted(before, SortBy(before, s))
  {
    if s != [] {
      SortSorts(before, s[1..]);
      InsertSorts(before, s[0], SortBy(before, s[1..]));
    }
  }

  /** Only one sequence lists the same elements in strictly ascending order. */
  lemma {:induction false} StrictlySortedUnique<T(!new)>(before: (T, T) -> bool, a: seq<T>, b: seq<T>)
    requires StrictWeak(before) && StrictlySorted(before, a) && StrictlySorted(before, b)
    requires forall x :: x in a <==> x in b
    ensures a == b
  {
    assert b == [] || b[0] in b;
    if a != [] {
      assert a[0] in b;
      assert b[0] in a;
      var j: nat :| j < |b| && b[j] == a[0];
      var i: nat :| i < |a| && a[i] == b[0];
      assert a[0] == b[0];
      forall x ensures x in a[1..] <==> x in b[1..] {
        TailMembers(before, a, x);
        TailMembers(before, b, x);
      }
      StrictlySortedUnique(before, a[1..], b[1..]);
      assert a == [a[0]] + a[1..] && b == [b[0]] + b[1..];
    }
  }

  lemma TailMembers<T(!new)>(before: (T, T) -> bool, a: seq<T>, x: T)
    requires StrictWeak(before) && StrictlySorted(before, a) && a != []
    ensures x in a[1..] <==> x in a && x != a[0]
  {
    if x in a && x != a[0] {
      var i: nat :| i < |a| && a[i] == x;
      assert a[1..][i - 1] == x;
    }
    if x in a[1..] {
      var i: nat :| i < |a[1..]| && a[1..][i] == x;
      assert a[i + 1] == x && before(a[0], a[i + 1]);
    }
  }

  /** Sorting gives that sequence when no two elements compare equal. */
  lemma SortedIsStrict<T(!new)>(before: (T, T) -> bool, s: seq<T>)
    requires StrictWeak(before) && Sorted(before, s)
    requires forall i: nat, j: nat :: i < j < |s| ==> before(s[i], s[j]) || before(s[j], s[i])
    ensures StrictlySorted(before, s)
  {
  }

  predicate NoDuplicates<T(==)>(s: seq<T>) {
    forall i: nat, j: nat :: i < j < |s| ==> s[i] != s[j]
  }

  lemma {:induction false} NoDuplicatesCount<T>(s: seq<T>)
    ensures NoDuplicates(s) <==> forall x :: x in s ==> multiset(s)[x] == 1
  {
    if s != [] {
      var x := s[0];
      NoDuplicatesCount(s[1..]);
      assert s == [x] + s[1..];
      if x !in s[1..] {
        assert multiset(s[1..])[x] == 0;
        if NoDuplicates(s[1..]) {
          forall i: nat, j: nat | i < j < |s| ensures s[i] != s[j] {
            assert s[j] == s[1..][j - 1];
            assert i > 0 ==> s[i] == s[1..][i - 1];
          }
        } else {
          var y :| y in s[1..] && multiset(s[1..])[y] != 1;
          assert multiset(s)[y] == multiset(s[1..])[y];
          var i: nat, j: nat :| i < j < |s[1..]| && s[1..][i] == s[1..][j];
          assert s[i + 1] == s[j + 1];
        }
      } else {
        assert multiset(s[1..])[x] >= 1;
        assert multiset(s)[x] >= 2;
        var j: nat :| j < |s[1..]| && s[1..][j] == x;
        assert s[0] == s[j + 1];
      }
    }
  }

  /** The elements of a set in ascending order. */
  ghost function Ascending<T>(before: (T, T) -> bool, s: set<T>): seq<T> {
    if s == {} then []
    else
      var x :| x in s;
      Insert(before, x, Ascending(before, s - {x}))
  }

  lemma {:induction false} AscendingLists<T(!new)>(before: (T, T) -> bool, s: set<T>)
    requires StrictWeak(before)
    ensures Sorted(before, Ascending(before, s))
    ensures multiset(Ascending(before, s)) == multiset(s)
    ensures forall x :: x in Ascending(before, s) <==> x in s
    ensures |Ascending(before, s)| == |s|
  {
    if s != {} {
      var x :| x in s && Ascending(before, s) == Insert(before, x, Ascending(before, s - {x}));
      AscendingLists(before, s - {x});
      InsertSorts(before, x, Ascending(before, s - {x}));
      assert s == s - {x} + {x};
    }
    forall x ensures x in Ascending(before, s) <==> x in s {
      assert x in Ascending(before, s) <==> x in multiset(Ascending(before, s));
    }
    assert |Ascending(before, s)| == |multiset(Ascending(before, s))|;
  }

  ghost predicate Comparable<T(!new)>(before: (T, T) -> bool, s: set<T>) {
    forall x, y :: x in s && y in s && x != y ==> before(x, y) || before(y, x)
  }

  lemma TextsComparable(s: set<string>)
    ensures Comparable(Less, s)
  {
    forall x, y | x in s && y in s && x != y ensures Less(x, y) || Less(y, x) { LessTotal(x, y); }
  }

  lemma ListingIsStrict<T(!new)>(before: (T, T) -> bool, s: set<T>, q: seq<T>)
    requires StrictWeak(before) && Comparable(before, s)
    requires Sorted(before, q) && multiset(q) == multiset(s)
    ensures StrictlySorted(before, q)
  {
    NoDuplicatesCount(q);
    forall x | x in q ensures x in s && multiset(q)[x] == 1 { assert x in multiset(q); }
    forall i: nat, j: nat | i < j < |q| ensures before(q[i], q[j]) || before(q[j], q[i]) {
      assert q[i] in s && q[j] in s;
    }
    SortedIsStrict(before, q);
  }

  /** Sorting any listing of a set gives its ascending sequence, whatever the order it
      was listed in. */
  lemma {:induction false} SortIsAscending<T(!new)>(before: (T, T) -> bool, s: set<T>, q: seq<T>)
    requires StrictWeak(before) && Comparable(before, s)
    requires NoDuplicates(q) && forall x :: x in q <==> x in s
    ensures SortBy(before, q) == Ascending(before, s)
  {
    var r := SortBy(before, q);
    NoDuplicatesCount(q);
    forall x ensures multiset(q)[x] == multiset(s)[x] { assert x in q <==> x in multiset(q); }
    assert multiset(q) == multiset(s);
    SortSorts(before, q);
    AscendingLists(before, s);
    ListingIsStrict(before, s, r);
    ListingIsStrict(before, s, Ascending(before, s));
    forall x ensures x in r <==> x in Ascending(before, s) { assert x in r <==> x in multiset(r); }
    StrictlySortedUnique(before, r, Ascending(before, s));
  }

  lemma {:induction false} StrictIsAscending<T(!new)>(before: (T, T) -> bool, s: set<T>, q: seq<T>)
    requires StrictWeak(before) && Comparable(before, s) && StrictlySorted(before, q) && forall x :: x in q <==> x in s
    ensures q == Ascending(before, s)
  {
    AscendingLists(before, s);
    ListingIsStrict(before, s, Ascending(before, s));
    StrictlySortedUnique(before, q, Ascending(before, s));
  }

  lemma BeforeTransitive<T(!new)>(before: (T, T) -> bool, a: T, b: T, c: T)
    requires StrictWeak(before) && before(a, b) && before(b, c)
    ensures before(a, c)
  {
    assert !before(c, b);
    assert !before(a, c) ==> !before(a, b);
  }

  /** The sequence lists the elements of the set, each once. */
  ghost predicate Lists<T(!new)>(s: seq<T>, e: set<T>) { NoDuplicates(s) && forall x :: x in s <==> x in e }

  lemma ListsConcat<T(!new)>(a: seq<T>, b: seq<T>, d: set<T>, e: set<T>)
    requires Lists(a, d) && Lists(b, e) && d !! e
    ensures Lists(a + b, d + e)
  {
    forall i: nat, j: nat | i < j < |a + b| ensures (a + b)[i] != (a + b)[j] {
      assert i < |a| ==> (a + b)[i] in a;
      assert j >= |a| ==> (a + b)[j] in b;
    }
  }

  // ---------------------------------------------------------------------
  // Repeating the elements of a sequence
  // ---------------------------------------------------------------------

  function Repeat<T>(x: T, n: nat): seq<T> { seq(n, i => x) }

  /** Every element in turn, as often as its count says. */
  function Expand<T>(count: T -> nat, s: seq<T>): seq<T> {
    if s == [] then [] else Repeat(s[0], count(s[0])) + Expand(count, s[1..])
  }

  lemma SeqAssociates<T>(a: seq<T>, b: seq<T>, c: seq<T>)
    ensures a + b + c == a + (b + c)
  {
  }

  lemma {:induction false} ExpandConcat<T>(count: T -> nat, a: seq<T>, b: seq<T>)
    ensures Expand(count, a + b) == Expand(count, a) + Expand(count, b)
  {
    hide Repeat;
    if a == [] {
      assert a + b == b;
    } else {
      ExpandConcat(count, a[1..], b);
      assert (a + b)[1..] == a[1..] + b;
      SeqAssociates(Repeat(a[0], count(a[0])), Expand(count, a[1..]), Expand(count, b));
    }
  }

  lemma {:induction false} ExpandSnoc<T>(count: T -> nat, s: seq<T>, x: T)
    ensures Expand(count, s + [x]) == Expand(count, s) + Repeat(x, count(x))
  {
    ExpandConcat(count, s, [x]);
    assert [x][1..] == [];
    assert Expand(count, [x]) == Repeat(x, count(x)) + Expand(count, []);
  }

  lemma {:induction false} ExpandPermutation<T>(count: T -> nat, a: seq<T>, b: seq<T>)
    requires multiset(a) == multiset(b)
    ensures multiset(Expand(count, a)) == multiset(Expand(count, b))
    decreases |a|
  {
    hide Expand;
    if a == [] {
      assert |multiset(b)| == 0;
      assert b == [];
    } else {
      var c, x := a[..|a| - 1], a[|a| - 1];
      assert a == c + [x];
      assert x in multiset(b);
      var i: nat :| i < |b| && b[i] == x;
      var l, r := b[..i], b[i + 1..];
      assert b == l + [x] + r;
      SamePermutation(c, l, x, r);
      ExpandPermutation(count, c, l + r);
      ExpandWithout(count, l, x, r);
      ExpandSnoc(count, c, x);
    }
  }

  lemma SamePermutation<T>(c: seq<T>, l: seq<T>, x: T, r: seq<T>)
    requires multiset(c + [x]) == multiset(l + [x] + r)
    ensures multiset(c) == multiset(l + r)
  {
    var p, q := multiset(c), multiset(l + r);
    assert p + multiset{x} == q + multiset{x};
    assert p == (p + multiset{x}) - multiset{x};
    assert q == (q + multiset{x}) - multiset{x};
  }

  lemma {:induction false} ExpandWithout<T>(count: T -> nat, l: seq<T>, x: T, r: seq<T>)
    ensures multiset(Expand(count, l + [x] + r)) == multiset(Expand(count, l + r)) + multiset(Repeat(x, count(x)))
  {
    hide Expand;
    ExpandSnoc(count, l, x);
    ExpandConcat(count, l, r);
    ExpandConcat(count, l + [x], r);
  }

  lemma {:induction false} ExpandMembers<T>(count: T -> nat, s: seq<T>, x: T)
    ensures x in Expand(count, s) <==> x in s && count(x) > 0
  {
    if s != [] {
      var y := s[0];
      ExpandMembers(count, s[1..], x);
      assert s == [y] + s[1..];
      assert count(y) > 0 ==> Repeat(y, count(y))[0] == y;
    }
  }

  // ---------------------------------------------------------------------
  // Numerals and reference shapes
  // ---------------------------------------------------------------------

  predicate Digit(c: char) { '0' <= c <= '9' }

  predicate LowerHex(c: char) { Digit(c) || 'a' <= c <= 'f' }

  predicate LowerLetter(c: char) { 'a' <= c <= 'z' }

  /** Sixty-four lower-case hexadecimal digits. */
  predicate Sha256Text(s: string) { |s| == 64 && forall i :: 0 <= i < |s| ==> LowerHex(s[i]) }

  function Decimal(n: nat): (s: string)
    ensures s != "" && (forall i :: 0 <= i < |s| ==> Digit(s[i])) && (n > 0 ==> s[0] != '0')
  {
    var digit := ('0' as int + n % 10) as char;
    if n < 10 then [digit] else Decimal(n / 10) + [digit]
  }

  function ValueOf(s: string): int {
    if s == "" then 0 else 10 * ValueOf(s[..|s| - 1]) + (s[|s| - 1] as int - '0' as int)
  }

  lemma {:induction false} DecimalRoundTrip(n: nat)
    ensures ValueOf(Decimal(n)) == n
  {
    var s := Decimal(n);
    if n < 10 {
      assert s[..0] == "";
    } else {
      DecimalRoundTrip(n / 10);
      assert s[..|s| - 1] == Decimal(n / 10);
    }
  }

  function Numeral(n: int): string { if n < 0 then "-" + Decimal(-n) else Decimal(n) }

  /** Where a character first occurs; the length if nowhere. */
  function IndexOf(c: char, s: string): (i: nat)
    ensures i <= |s| && (i < |s| ==> s[i] == c) && c !in s[..i]
  {
    if s == "" || s[0] == c then 0
    else
      assert s[..1 + IndexOf(c, s[1..])] == [s[0]] + s[1..][..IndexOf(c, s[1..])];
      1 + IndexOf(c, s[1..])
  }

  /** Text up to a separator it does not contain can be read back. */
  lemma SplitUnique(a: string, b: string, c: string, d: string, mark: char)
    requires a + [mark] + b == c + [mark] + d
    requires mark !in a && mark !in c
    ensures a == c && b == d
  {
    var s := a + [mark] + b;
    assert s[|a|] == mark && s[|c|] == mark;
    assert forall i :: 0 <= i < |a| ==> s[i] == a[i];
    assert forall i :: 0 <= i < |c| ==> s[i] == c[i];
    assert |a| == |c|;
    assert a == s[..|a|] && c == s[..|c|];
    assert b == s[|a| + 1..] && d == s[|c| + 1..];
  }
}
