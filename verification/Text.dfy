/** Strings as the Go programs use them: decimal printing, last-index search, the byte
    order on strings and the library sort over it. */
module Text {

  // ---------- Decimal numbers ----------

  function DigitChar(d: nat): char
    requires d < 10
  {
    ('0' as int + d) as char
  }

  predicate IsDigit(c: char) { '0' <= c <= '9' }

  predicate AllDigits(s: string) { forall c | c in s :: IsDigit(c) }

  /** `%d` of a non-negative number. */
  function Decimal(n: nat): (s: string)
    ensures s != "" && AllDigits(s)
  {
    if n < 10 then [DigitChar(n)] else Decimal(n / 10) + [DigitChar(n % 10)]
  }

  function ParseDecimal(s: string): nat
    requires AllDigits(s)
  {
    if s == "" then 0
    else
      assert IsDigit(s[|s| - 1]);
      ParseDecimal(s[..|s| - 1]) * 10 + (s[|s| - 1] as int - '0' as int)
  }

  lemma {:induction false} ParseUndoesDecimal(n: nat)
    ensures ParseDecimal(Decimal(n)) == n
  {
    if n >= 10 {
      ParseUndoesDecimal(n / 10);
      assert Decimal(n)[..|Decimal(n)| - 1] == Decimal(n / 10);
    }
  }

  lemma DecimalInjective(m: nat, n: nat)
    requires Decimal(m) == Decimal(n)
    ensures m == n
  {
    ParseUndoesDecimal(m);
    ParseUndoesDecimal(n);
  }

  function PowerOfTen(k: nat): (p: nat)
    ensures p >= 1
  {
    if k == 0 then 1 else 10 * PowerOfTen(k - 1)
  }

  /** A number below 10^k prints in at most k digits. */
  lemma {:induction false} DecimalLength(n: nat, k: nat)
    requires 1 <= k && n < PowerOfTen(k)
    ensures |Decimal(n)| <= k
  {
    if n >= 10 {
      assert k > 1;
      assert n / 10 < PowerOfTen(k - 1);
      DecimalLength(n / 10, k - 1);
    }
  }

  // ---------- Searching ----------

  /** strings.LastIndex for a one-character separator: -1 when absent. */
  function LastIndex(s: string, c: char): (i: int)
    ensures -1 <= i < |s|
    ensures i >= 0 ==> s[i] == c && c !in s[i + 1..]
    ensures i < 0 ==> c !in s
  {
    if s == "" then -1
    else if s[|s| - 1] == c then |s| - 1
    else
      var i := LastIndex(s[..|s| - 1], c);
      assert i >= 0 ==> s[i + 1..] == s[..|s| - 1][i + 1..] + [s[|s| - 1]];
      i
  }

  /** LastIndex is the only index that carries c with none after it. */
  lemma LastIndexUnique(s: string, c: char, k: nat)
    requires k < |s| && s[k] == c && c !in s[k + 1..]
    ensures LastIndex(s, c) == k
  {}

  lemma {:induction false} LastIndexIsLast(s: string, c: char, k: nat)
    requires k < |s| && s[k] == c
    ensures LastIndex(s, c) >= k
  {
    if s[|s| - 1] != c {
      LastIndexIsLast(s[..|s| - 1], c, k);
    }
  }

  /** The last separator of a + c + b is the one written, exactly when b has none. */
  lemma LastIndexSplits(a: string, c: char, b: string)
    ensures LastIndex(a + [c] + b, c) == |a| <==> c !in b
  {
    var s := a + [c] + b;
    assert s[|a|] == c && s[|a| + 1..] == b;
    if c !in b {
      LastIndexUnique(s, c, |a|);
    }
  }

  predicate HasSuffix(s: string, suffix: string)
  {
    |suffix| <= |s| && s[|s| - |suffix|..] == suffix
  }

  // ---------- Byte order and sorting ----------

  predicate StrLe(a: string, b: string)
  {
    a == "" || (b != "" && (a[0] < b[0] || (a[0] == b[0] && StrLe(a[1..], b[1..]))))
  }

  lemma StrLeTotal(a: string, b: string)
    ensures StrLe(a, b) || StrLe(b, a)
  {}

  lemma {:induction false} StrLeAntisymmetric(a: string, b: string)
    requires StrLe(a, b) && StrLe(b, a)
    ensures a == b
  {
    if a != "" && b != "" {
      StrLeAntisymmetric(a[1..], b[1..]);
      assert a == [a[0]] + a[1..] && b == [b[0]] + b[1..];
    }
  }

  lemma {:induction false} StrLeTransitive(a: string, b: string, c: string)
    requires StrLe(a, b) && StrLe(b, c)
    ensures StrLe(a, c)
  {
    if a != "" && b != "" && c != "" && a[0] == b[0] == c[0] {
      StrLeTransitive(a[1..], b[1..], c[1..]);
    }
  }

  /** The strings agree before index i, and there the first has the smaller code point. */
  predicate PartsAt(a: string, b: string, i: nat) { i < |a| && i < |b| && a[i] < b[i] && a[..i] == b[..i] }

  lemma PartsLater(a: string, b: string, i: nat)
    requires a != "" && b != "" && a[0] == b[0]
    ensures PartsAt(a[1..], b[1..], i) <==> PartsAt(a, b, i + 1)
  {
    if i + 1 < |a| && i + 1 < |b| {
      assert a[..i + 1] == [a[0]] + a[1..][..i] && b[..i + 1] == [b[0]] + b[1..][..i];
      assert a[1..][..i] == a[..i + 1][1..] && b[1..][..i] == b[..i + 1][1..];
    }
  }

  lemma PartsFirst(a: string, b: string, i: nat)
    requires a != "" && b != "" && a[0] != b[0]
    ensures PartsAt(a, b, i) <==> i == 0 && a[0] < b[0]
  {
    if 0 < i < |a| && i < |b| { assert a[..i][0] != b[..i][0]; }
  }

  lemma PrefixOfRest(a: string, b: string)
    requires a != "" && b != ""
    ensures a <= b <==> a[0] == b[0] && a[1..] <= b[1..]
  {
    assert a == [a[0]] + a[1..] && b == [b[0]] + b[1..];
  }

  /** A prefix comes first, and otherwise the smaller code point where two strings part. */
  lemma {:induction false} StrLeIsLexicographic(a: string, b: string)
    ensures StrLe(a, b) <==> a <= b || exists i :: PartsAt(a, b, i)
  {
    if a != "" && b != "" {
      PrefixOfRest(a, b);
      if a[0] == b[0] {
        StrLeIsLexicographic(a[1..], b[1..]);
        forall i: nat ensures PartsAt(a[1..], b[1..], i) <==> PartsAt(a, b, i + 1) { PartsLater(a, b, i); }
        if i: nat :| PartsAt(a, b, i) { assert i > 0 && PartsAt(a[1..], b[1..], i - 1); }
      } else {
        PartsFirst(a, b, 0);
        if i: nat :| PartsAt(a, b, i) { PartsFirst(a, b, i); }
      }
    }
  }

  ghost predicate Sorted(s: seq<string>)
  {
    forall i, j | 0 <= i < j < |s| :: StrLe(s[i], s[j])
  }

  function Insert(x: string, s: seq<string>): seq<string>
  {
    if s == [] || StrLe(x, s[0]) then [x] + s else [s[0]] + Insert(x, s[1..])
  }

  /** sort.Strings. */
  function SortStrings(s: seq<string>): seq<string>
  {
    if s == [] then [] else Insert(s[0], SortStrings(s[1..]))
  }

  lemma {:induction false} InsertKeeps(x: string, s: seq<string>)
    requires Sorted(s)
    ensures Sorted(Insert(x, s))
    ensures multiset(Insert(x, s)) == multiset(s) + multiset{x}
  {
    if s == [] {
    } else if StrLe(x, s[0]) {
      forall j | 0 <= j < |s| ensures StrLe(x, s[j]) {
        if j > 0 { StrLeTransitive(x, s[0], s[j]); }
      }
    } else {
      InsertKeeps(x, s[1..]);
      var t := Insert(x, s[1..]);
      assert s == [s[0]] + s[1..];
      StrLeTotal(x, s[0]);
      forall j | 0 <= j < |t| ensures StrLe(s[0], t[j]) {
        assert t[j] in multiset(s[1..]) + multiset{x};
        if t[j] != x {
          assert t[j] in s[1..];
        }
      }
    }
  }

  lemma {:induction false} SortStringsSorts(s: seq<string>)
    ensures Sorted(SortStrings(s))
    ensures multiset(SortStrings(s)) == multiset(s)
  {
    if s != [] {
      SortStringsSorts(s[1..]);
      InsertKeeps(s[0], SortStrings(s[1..]));
      assert s == [s[0]] + s[1..];
    }
  }

  lemma SameLeast(a: seq<string>, b: seq<string>)
    requires Sorted(a) && Sorted(b) && multiset(a) == multiset(b) && a != [] && b != []
    ensures a[0] == b[0]
  {
    assert b[0] in multiset(a) && a[0] in multiset(b);
    var i :| 0 <= i < |a| && a[i] == b[0];
    var j :| 0 <= j < |b| && b[j] == a[0];
    if i > 0 && j > 0 {
      StrLeAntisymmetric(a[0], b[0]);
    }
  }

  lemma {:induction false} SortedIsUnique(a: seq<string>, b: seq<string>)
    requires Sorted(a) && Sorted(b) && multiset(a) == multiset(b)
    ensures a == b
  {
    assert |a| == |multiset(a)| == |multiset(b)| == |b|;
    if a != [] {
      SameLeast(a, b);
      assert a == [a[0]] + a[1..] && b == [b[0]] + b[1..];
      assert multiset(a[1..]) == multiset(a) - multiset{a[0]};
      assert multiset(b[1..]) == multiset(b) - multiset{b[0]};
      SortedIsUnique(a[1..], b[1..]);
    }
  }

  /** Sorting forgets the order it was given, and only the order. */
  lemma SortForgetsOrder(a: seq<string>, b: seq<string>)
    ensures SortStrings(a) == SortStrings(b) <==> multiset(a) == multiset(b)
  {
    SortStringsSorts(a);
    SortStringsSorts(b);
    if multiset(a) == multiset(b) {
      SortedIsUnique(SortStrings(a), SortStrings(b));
    }
  }

  lemma SortIsIdentityOnSorted(a: seq<string>)
    requires Sorted(a)
    ensures SortStrings(a) == a
  {
    SortStringsSorts(a);
    SortedIsUnique(SortStrings(a), a);
  }

  /** A set of strings in sorted order. */
  ghost function Ordered(s: set<string>): seq<string>
  {
    if s == {} then [] else var m :| m in s; Insert(m, Ordered(s - {m}))
  }

  lemma {:induction false} OrderedIsExact(s: set<string>)
    ensures Sorted(Ordered(s)) && multiset(Ordered(s)) == multiset(s)
    ensures forall x :: x in Ordered(s) <==> x in s
  {
    assert Sorted([]);
    hide Insert, Sorted, StrLe;
    if s != {} {
      var m :| m in s && Ordered(s) == Insert(m, Ordered(s - {m}));
      OrderedIsExact(s - {m});
      InsertKeeps(m, Ordered(s - {m}));
      assert multiset(s) == multiset(s - {m}) + multiset{m};
    }
    assert forall x :: x in Ordered(s) <==> x in multiset(Ordered(s));
  }

  lemma OrderedIsUnique(s: set<string>, t: seq<string>)
    requires Sorted(t) && multiset(t) == multiset(s)
    ensures t == Ordered(s)
  {
    OrderedIsExact(s);
    SortedIsUnique(t, Ordered(s));
  }

  /** sortedKeys: the keys of a map, in whatever order they are visited, then sorted. */
  method SortedKeys(keys: set<string>) returns (sorted: seq<string>)
    ensures sorted == Ordered(keys)
  {
    var found: seq<string>, rest := [], keys;
    while rest != {}
      invariant rest <= keys && multiset(found) + multiset(rest) == multiset(keys)
      decreases rest
    {
      var k :| k in rest;
      found, rest := found + [k], rest - {k};
    }
    sorted := SortStrings(found);
    SortStringsSorts(found);
    OrderedIsUnique(keys, sorted);
  }

  ghost predicate NoRepeats<T(!new)>(s: seq<T>)
  {
    forall i, j | 0 <= i < j < |s| :: s[i] != s[j]
  }

  lemma {:induction false} NoRepeatsCounts<T(!new)>(s: seq<T>)
    requires NoRepeats(s)
    ensures multiset(s) == multiset(set x | x in s)
  {
    if s == [] {
    } else {
      var front, last := s[..|s| - 1], s[|s| - 1];
      NoRepeatsCounts(front);
      assert s == front + [last] && last !in front;
      assert (set x | x in s) == (set x | x in front) + {last};
    }
  }

  lemma NoRepeatsFront<T(!new)>(s: seq<T>, x: T)
    requires NoRepeats(s + [x])
    ensures NoRepeats(s) && x !in s
  {
    var t := s + [x];
    forall i, j | 0 <= i < j < |s| ensures s[i] != s[j] {
      assert t[i] != t[j];
    }
    forall i | 0 <= i < |s| ensures s[i] != x {
      assert t[i] != t[|s|];
    }
  }

  lemma RepeatCountsTwice<T(!new)>(s: seq<T>, i: nat, j: nat)
    requires i < j < |s| && s[i] == s[j]
    ensures multiset(s)[s[i]] >= 2
  {
    assert s == s[..j] + [s[j]] + s[j + 1..];
    assert s[i] in s[..j];
  }

  lemma OrderedHasNoRepeats(s: set<string>)
    ensures NoRepeats(Ordered(s))
  {
    var t := Ordered(s);
    if !NoRepeats(t) {
      var i, j :| 0 <= i < j < |t| && t[i] == t[j];
      RepeatCountsTwice(t, i, j);
      OrderedIsExact(s);
    }
  }

  /** Items without repeats are no more than the set they are from. */
  lemma NoMoreThan<T(!new)>(items: seq<T>, all: set<T>)
    requires NoRepeats(items) && forall x | x in items :: x in all
    ensures |items| <= |all|
  {
    NoRepeatsCounts(items);
    var held := set x | x in items;
    assert |items| == |multiset(items)| == |held|;
    assert held <= all;
    assert |all| == |held| + |all - held|;
  }

  lemma ElementsAreNoMore<T(!new)>(items: seq<T>)
    ensures |set x | x in items| <= |items|
  {
    if items != [] {
      var front, last := items[..|items| - 1], items[|items| - 1];
      ElementsAreNoMore(front);
      assert items == front + [last];
      assert (set x | x in items) == (set x | x in front) + {last};
    }
  }
}
