/** Values shared by every component: options, the order Go sorts strings by, and
    the two library calls (`slices.Sort`, `slices.Compact`) the controllers lean on. */
module Common {

  datatype Option<+T> = None | Some(value: T)

  // Durations and instants are nanoseconds, as in Go's time package.
  const SECOND: int := 1_000_000_000
  const MINUTE: int := 60 * SECOND
  const HOUR: int := 60 * MINUTE

  /** The instant an RFC 3339 date-time (section 5.6) without a fraction stands for. */
  function Floor(t: int): (r: int)
    ensures r <= t < r + SECOND
    ensures r % SECOND == 0
    ensures t % SECOND == 0 ==> r == t
  {
    t - t % SECOND
  }

  /** Whole seconds are kept by the date-time form, so flooring respects a whole lower bound. */
  lemma FloorKeepsWholeBound(t: int, bound: int)
    requires bound % SECOND == 0 && bound <= t
    ensures bound <= Floor(t)
  {
    var q, b := t / SECOND, bound / SECOND;
    assert bound == b * SECOND && Floor(t) == q * SECOND;
  }

  /** A Go int64. */
  function Wrap64(x: int): int { (x + 0x8000_0000_0000_0000) % 0x1_0000_0000_0000_0000 - 0x8000_0000_0000_0000 }

  lemma WrapTwice(a: int, b: int)
    ensures Wrap64(Wrap64(a) + b) == Wrap64(a + b)
  {
  }

  // ---- the byte-wise order of Go strings

  predicate Less(a: string, b: string) {
    if b == [] then false
    else if a == [] then true
    else if a[0] != b[0] then a[0] < b[0]
    else Less(a[1..], b[1..])
  }

  predicate AtMost(a: string, b: string) { a == b || Less(a, b) }

  lemma {:induction false} LessTransitive(a: string, b: string, c: string)
    requires Less(a, b) && Less(b, c)
    ensures Less(a, c)
  {
    if a != [] && a[0] == b[0] == c[0] {
      LessTransitive(a[1..], b[1..], c[1..]);
    }
  }

  lemma {:induction false} LessTotal(a: string, b: string)
    ensures Less(a, b) || a == b || Less(b, a)
    ensures !(Less(a, b) && Less(b, a)) && (a == b ==> !Less(a, b))
  {
    if a != [] && b != [] && a[0] == b[0] {
      LessTotal(a[1..], b[1..]);
      assert a == [a[0]] + a[1..] && b == [b[0]] + b[1..];
    }
  }

  ghost predicate Sorted(s: seq<string>) {
    forall i, j | 0 <= i < j < |s| :: AtMost(s[i], s[j])
  }

  /** Sorted and without duplicates. */
  ghost predicate Ascending(s: seq<string>) {
    forall i, j | 0 <= i < j < |s| :: Less(s[i], s[j])
  }

  /** A strictly sorted list is determined by what it holds. */
  lemma {:induction false} AscendingUnique(a: seq<string>, b: seq<string>)
    requires Ascending(a) && Ascending(b)
    requires forall x :: x in a <==> x in b
    ensures a == b
  {
    assert a != [] ==> a[0] in b;
    assert b != [] ==> b[0] in a;
    if a != [] && b != [] {
      AscendingHead(a, b);
      AscendingHead(b, a);
      LessTotal(a[0], b[0]);
      forall x ensures x in a[1..] <==> x in b[1..] {
        AscendingTail(a, x);
        AscendingTail(b, x);
      }
      AscendingUnique(a[1..], b[1..]);
      assert a == [a[0]] + a[1..] && b == [b[0]] + b[1..];
    }
  }

  lemma AscendingHead(a: seq<string>, b: seq<string>)
    requires a != [] && b != [] && Ascending(b) && a[0] in b
    ensures AtMost(b[0], a[0])
  {
    var k :| 0 <= k < |b| && b[k] == a[0];
  }

  lemma AscendingTail(a: seq<string>, x: string)
    requires a != [] && Ascending(a)
    ensures x in a[1..] <==> x in a && x != a[0]
  {
    LessTotal(a[0], a[0]);
    if x in a[1..] {
      var k :| 0 <= k < |a| - 1 && a[1..][k] == x;
      assert Less(a[0], a[k + 1]);
      LessTotal(a[0], x);
    }
  }

  function Insert(s: seq<string>, x: string): (r: seq<string>)
    requires Sorted(s)
    ensures Sorted(r) && multiset(r) == multiset(s) + multiset{x}
  {
    if s == [] then [x]
    else if AtMost(x, s[0]) then
      assert forall j | 0 <= j < |s| :: AtMost(x, s[j]) by {
        forall j | 0 < j < |s| ensures AtMost(x, s[j]) {
          if x != s[0] && s[0] != s[j] { LessTransitive(x, s[0], s[j]); }
        }
      }
      [x] + s
    else
      var r := Insert(s[1..], x);
      LessTotal(x, s[0]);
      assert s == [s[0]] + s[1..];
      assert forall y | y in r :: AtMost(s[0], y) by {
        forall y | y in r ensures AtMost(s[0], y) {
          assert y in multiset(r);
          assert y == x || y in s[1..];
        }
      }
      [s[0]] + r
  }

  /** `slices.Sort` and `sort.Strings`. */
  function SortStrings(s: seq<string>): (r: seq<string>)
    ensures Sorted(r) && multiset(r) == multiset(s)
  {
    if s == [] then [] else
      assert s == [s[0]] + s[1..];
      Insert(SortStrings(s[1..]), s[0])
  }

  lemma SortStringsKeeps(s: seq<string>)
    ensures |SortStrings(s)| == |s|
    ensures forall x :: x in SortStrings(s) <==> x in s
  {
    assert |multiset(SortStrings(s))| == |multiset(s)|;
    forall x ensures x in SortStrings(s) <==> x in s {
      assert x in multiset(SortStrings(s)) <==> x in multiset(s);
    }
  }

  /** `slices.Compact`: drops repeats of the element before. */
  function Compact(s: seq<string>): (r: seq<string>)
    ensures forall x :: x in r <==> x in s
    ensures s != [] ==> r != [] && r[0] == s[0]
    ensures Sorted(s) ==> Ascending(r)
  {
    if |s| < 2 then s
    else
      var rest := Compact(s[1..]);
      assert s == [s[0]] + s[1..];
      if s[0] == s[1] then rest
      else
        assert Sorted(s) ==> forall j | 0 <= j < |rest| :: Less(s[0], rest[j]) by {
          if Sorted(s) {
            forall j | 0 <= j < |rest| ensures Less(s[0], rest[j]) {
              assert AtMost(s[1], rest[j]) by { assert rest[j] == rest[0] || Less(rest[0], rest[j]); }
              if s[1] != rest[j] { LessTransitive(s[0], s[1], rest[j]); }
            }
          }
        }
        [s[0]] + rest
  }

  // ---- sequences

  predicate Distinct<T(==)>(s: seq<T>) { forall i, j | 0 <= i < j < |s| :: s[i] != s[j] }

  lemma AscendingDistinct(s: seq<string>)
    requires Ascending(s)
    ensures Distinct(s)
  {
    forall i, j | 0 <= i < j < |s| ensures s[i] != s[j] { LessTotal(s[i], s[j]); }
  }

  /** The elements of `s` that are not in `out`, in order. */
  function Without(s: seq<string>, out: seq<string>): (r: seq<string>)
    ensures forall x :: x in r <==> x in s && x !in out
  {
    if s == [] then [] else
      assert s == [s[0]] + s[1..];
      (if s[0] in out then [] else [s[0]]) + Without(s[1..], out)
  }

  lemma {:induction false} WithoutDistinct(s: seq<string>, out: seq<string>)
    requires Distinct(s)
    ensures Distinct(Without(s, out))
  {
    if s == [] {
    } else {
      WithoutDistinct(s[1..], out);
    }
  }

  lemma {:induction false} WithoutAppend(s: seq<string>, x: string, out: seq<string>)
    ensures Without(s + [x], out) == Without(s, out) + (if x in out then [] else [x])
  {
    var tail := if x in out then [] else [x];
    if s == [] {
      assert s + [x] == [x] && [x][1..] == [];
    } else {
      WithoutAppend(s[1..], x, out);
      assert (s + [x])[1..] == s[1..] + [x] && (s + [x])[0] == s[0];
      var head := if s[0] in out then [] else [s[0]];
      assert head + (Without(s[1..], out) + tail) == head + Without(s[1..], out) + tail;
    }
  }

  lemma SortedDistinct(s: seq<string>, d: seq<string>)
    requires Sorted(s) && Distinct(d) && multiset(s) == multiset(d)
    ensures Ascending(s)
  {
    forall i, j | 0 <= i < j < |s| ensures Less(s[i], s[j]) {
      if s[i] == s[j] {
        assert s == s[..i] + [s[i]] + s[i + 1..j] + [s[j]] + s[j + 1..];
        assert multiset(s)[s[i]] >= 2;
        AtMostOnce(d, s[i]);
        assert false;
      }
    }
  }

  lemma {:induction false} AtMostOnce(d: seq<string>, x: string)
    requires Distinct(d)
    ensures multiset(d)[x] <= 1 && (x !in d ==> multiset(d)[x] == 0)
  {
    if d == [] {
    } else {
      assert d == [d[0]] + d[1..];
      AtMostOnce(d[1..], x);
    }
  }

  lemma {:induction false} SubsetSize(a: set<string>, b: set<string>)
    requires a <= b
    ensures |a| <= |b|
  {
    if a == {} {
    } else {
      var x :| x in a;
      SubsetSize(a - {x}, b - {x});
    }
  }
}
