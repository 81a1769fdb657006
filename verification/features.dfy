/** The feature records the screens browse, and the two list operations
    they apply to them: `Array.prototype.filter` and a stable
    `Array.prototype.sort`. */
module Features {
  import opened Text

  /** `feature.kind` */
  datatype Kind = FeatureKind | Moved | Split

  /** `status.baseline`: `"high"`, `"low"` or `false` */
  datatype Baseline = High | Low | NotBaseline

  /** `feature.status`, with its optional date strings such as `"2023-03-14"`
      or `"≤2020-01-29"`. */
  datatype Status = Status(baseline: Baseline, lowDate: Option<string>, highDate: Option<string>)

  /** One dataset entry together with its key (`{ key, ...feature }`). */
  datatype Feature = Feature(
    key: string,
    kind: Kind,
    name: Option<string>,
    description: Option<string>,
    status: Option<Status>)

  /** JavaScript truthiness of an optional string: present and non-empty. */
  predicate Truthy(s: Option<string>)
  {
    s.Some? && s.value != ""
  }

  /** `feature.status?.baseline_low_date` */
  function LowDate(f: Feature): Option<string>
  {
    if f.status.Some? then f.status.value.lowDate else None
  }

  /** `feature.status?.baseline_high_date` */
  function HighDate(f: Feature): Option<string>
  {
    if f.status.Some? then f.status.value.highDate else None
  }

  /** `r` is `s` with some elements left out, the rest kept in order. */
  ghost predicate IsSubsequence<T>(r: seq<T>, s: seq<T>)
    decreases |s|
  {
    if r == [] then true
    else if s == [] then false
    else (r[0] == s[0] && IsSubsequence(r[1..], s[1..])) || IsSubsequence(r, s[1..])
  }

  /** `s.filter(p)`: the elements satisfying `p`, each as often as in `s`,
      in their original order. */
  function Filter<T(!new)>(s: seq<T>, p: T -> bool): (r: seq<T>)
    ensures |r| <= |s|
    ensures IsSubsequence(r, s)
    ensures forall i :: 0 <= i < |r| ==> p(r[i])
    ensures forall x :: x in r <==> x in s && p(x)
    decreases |s|
  {
    if s == [] then []
    else
      var rest := Filter(s[1..], p);
      assert s == [s[0]] + s[1..];
      if p(s[0]) then [s[0]] + rest else rest
  }

  /** An element occurs in the filtered list as often as in the input when
      it satisfies the predicate, and not at all otherwise. */
  lemma FilterCounts<T(!new)>(s: seq<T>, p: T -> bool)
    ensures forall x :: multiset(Filter(s, p))[x] == if p(x) then multiset(s)[x] else 0
  {
    forall x {
      FilterCount(s, p, x);
    }
  }

  lemma {:induction false} FilterCount<T(!new)>(s: seq<T>, p: T -> bool, x: T)
    ensures multiset(Filter(s, p))[x] == if p(x) then multiset(s)[x] else 0
    decreases |s|
  {
    if s != [] {
      var rest := Filter(s[1..], p);
      var head := if p(s[0]) then [s[0]] else [];
      FilterCount(s[1..], p, x);
      assert s == [s[0]] + s[1..];
      assert Filter(s, p) == head + rest;
      assert multiset(Filter(s, p)) == multiset(head) + multiset(rest);
      assert multiset(s) == multiset{s[0]} + multiset(s[1..]);
    }
  }

  lemma {:induction false} FilterAppend<T(!new)>(s: seq<T>, x: T, p: T -> bool)
    ensures Filter(s + [x], p) == Filter(s, p) + (if p(x) then [x] else [])
    decreases |s|
  {
    if s == [] {
      assert [x][1..] == [];
    } else {
      var t := s + [x];
      assert t[0] == s[0] && t[1..] == s[1..] + [x];
      FilterAppend(s[1..], x, p);
      var tail := if p(x) then [x] else [];
      if p(s[0]) {
        calc {
          Filter(t, p);
          [s[0]] + Filter(s[1..] + [x], p);
          [s[0]] + (Filter(s[1..], p) + tail);
          ([s[0]] + Filter(s[1..], p)) + tail;
        }
      }
    }
  }

  /** Filtering one more element of a prefix: the step of a loop that
      pushes the elements satisfying `p`. */
  lemma FilterPrefixStep<T(!new)>(s: seq<T>, i: nat, p: T -> bool)
    requires i < |s|
    ensures Filter(s[..i + 1], p) == Filter(s[..i], p) + (if p(s[i]) then [s[i]] else [])
  {
    assert s[..i + 1] == s[..i] + [s[i]];
    FilterAppend(s[..i], s[i], p);
  }

  /** A filter with a weaker predicate keeps everything a filter with a
      stronger one keeps, in the same relative order. */
  lemma {:induction false} FilterMonotone<T(!new)>(s: seq<T>, p: T -> bool, q: T -> bool)
    requires forall x :: p(x) ==> q(x)
    ensures IsSubsequence(Filter(s, p), Filter(s, q))
    decreases |s|
  {
    if s != [] {
      FilterMonotone(s[1..], p, q);
      var a, b := Filter(s[1..], p), Filter(s[1..], q);
      if p(s[0]) {
        assert ([s[0]] + a)[1..] == a && ([s[0]] + b)[1..] == b;
      } else if q(s[0]) {
        SubsequenceOfTail(a, b, s[0]);
      }
    }
  }

  lemma {:induction false} SubsequenceOfTail<T>(r: seq<T>, s: seq<T>, x: T)
    requires IsSubsequence(r, s)
    ensures IsSubsequence(r, [x] + s)
  {
    assert ([x] + s)[1..] == s;
  }

  /** `le` is a total preorder: the comparison a sort needs. */
  ghost predicate TotalPreorder<T(!new)>(le: (T, T) -> bool)
  {
    && (forall a, b :: le(a, b) || le(b, a))
    && (forall a, b, c :: le(a, b) && le(b, c) ==> le(a, c))
  }

  predicate SortedBy<T>(s: seq<T>, le: (T, T) -> bool)
  {
    forall i, j :: 0 <= i < j < |s| ==> le(s[i], s[j])
  }

  /** Inserts `x` before the first element it precedes; ties keep `x` first. */
  function Insert<T>(x: T, s: seq<T>, le: (T, T) -> bool): (r: seq<T>)
    ensures multiset(r) == multiset(s) + multiset{x}
    ensures |r| == |s| + 1
  {
    if s == [] || le(x, s[0]) then [x] + s
    else
      assert s == [s[0]] + s[1..];
      [s[0]] + Insert(x, s[1..], le)
  }

  lemma {:induction false} InsertSorted<T(!new)>(x: T, s: seq<T>, le: (T, T) -> bool)
    requires TotalPreorder(le)
    requires SortedBy(s, le)
    ensures SortedBy(Insert(x, s, le), le)
  {
    if s != [] && !le(x, s[0]) {
      InsertSorted(x, s[1..], le);
      var r := Insert(x, s[1..], le);
      assert forall k :: 0 <= k < |r| ==> r[k] in multiset(s[1..]) + multiset{x};
      forall k | 0 <= k < |r| ensures le(s[0], r[k]) {
        assert r[k] in multiset(s[1..]) + multiset{x};
        if r[k] != x {
          assert r[k] in multiset(s[1..]);
          var m :| 0 <= m < |s[1..]| && s[1..][m] == r[k];
          assert s[m + 1] == r[k];
        }
      }
    }
  }

  /** The elements `le` ranks equal to `v`. */
  function EquivTo<T>(le: (T, T) -> bool, v: T): T -> bool
  {
    x => le(x, v) && le(v, x)
  }

  /** `r` keeps the elements that `le` ranks equal in the order they have
      in `s`: the guarantee of a stable sort. */
  ghost predicate StableOrder<T(!new)>(r: seq<T>, s: seq<T>, le: (T, T) -> bool)
  {
    forall v :: Filter(r, EquivTo(le, v)) == Filter(s, EquivTo(le, v))
  }

  /** Inserting `x` passes over no element that `p` keeps together with
      `x`, so filtering sees `x` first. */
  lemma {:induction false} FilterInsert<T(!new)>(x: T, r: seq<T>, le: (T, T) -> bool, p: T -> bool)
    requires forall y :: p(x) && p(y) ==> le(x, y)
    ensures Filter(Insert(x, r, le), p) == Filter([x] + r, p)
  {
    assert ([x] + r)[0] == x && ([x] + r)[1..] == r;
    if r != [] && !le(x, r[0]) {
      var i := Insert(x, r[1..], le);
      FilterInsert(x, r[1..], le, p);
      assert ([r[0]] + i)[0] == r[0] && ([r[0]] + i)[1..] == i;
      assert ([x] + r[1..])[0] == x && ([x] + r[1..])[1..] == r[1..];
      assert r == [r[0]] + r[1..];
    }
  }

  lemma InsertKeepsOrder<T(!new)>(x: T, rest: seq<T>, t: seq<T>, le: (T, T) -> bool)
    requires TotalPreorder(le)
    requires StableOrder(rest, t, le)
    ensures StableOrder(Insert(x, rest, le), [x] + t, le)
  {
    forall v ensures Filter(Insert(x, rest, le), EquivTo(le, v)) == Filter([x] + t, EquivTo(le, v)) {
      var p := EquivTo(le, v);
      assert Filter(rest, p) == Filter(t, p);
      forall y | p(x) && p(y) ensures le(x, y) {
        assert le(x, v) && le(v, y);
      }
      FilterInsert(x, rest, le, p);
      assert ([x] + rest)[0] == x && ([x] + rest)[1..] == rest;
      assert ([x] + t)[0] == x && ([x] + t)[1..] == t;
    }
  }

  /** A stable sort: the model of `s.sort(cmp)`, whose comparator induces
      the total preorder `le`. Since ES2019 `sort` is stable: elements the
      comparator ranks equal stay in their original order. */
  function Sort<T(!new)>(s: seq<T>, le: (T, T) -> bool): (r: seq<T>)
    requires TotalPreorder(le)
    ensures SortedBy(r, le)
    ensures multiset(r) == multiset(s)
    ensures |r| == |s|
    ensures StableOrder(r, s, le)
  {
    if s == [] then []
    else
      var rest := Sort(s[1..], le);
      InsertSorted(s[0], rest, le);
      InsertKeepsOrder(s[0], rest, s[1..], le);
      assert s == [s[0]] + s[1..];
      Insert(s[0], rest, le)
  }

  /** Two sequences with the same multiset have the same elements. */
  lemma SameElements<T>(a: seq<T>, b: seq<T>)
    requires multiset(a) == multiset(b)
    ensures forall x :: x in a <==> x in b
  {
    forall x ensures x in a <==> x in b {
      assert x in a <==> x in multiset(a);
      assert x in b <==> x in multiset(b);
    }
  }

  /** The place of a character in the order `localeCompare` gives the
      dataset's date strings: character code order, except that the symbol
      `≤` comes just before the digit `0` (the Unicode collation puts
      punctuation, then symbols, then digits). */
  function CollationRank(c: char): (r: int)
    ensures c != '≤' ==> r == 2 * (c as int)
    ensures c == '≤' ==> 2 * ('-' as int) < r < 2 * ('0' as int)
  {
    if c == '≤' then 2 * ('0' as int) - 1 else 2 * (c as int)
  }

  /** Lexicographic order on strings by `CollationRank`, which stands in
      for `localeCompare` on the date strings `YYYY-MM-DD` and `≤YYYY-MM-DD`. */
  predicate LexLe(a: string, b: string)
  {
    if a == [] then true
    else if b == [] then false
    else if a[0] != b[0] then CollationRank(a[0]) < CollationRank(b[0])
    else LexLe(a[1..], b[1..])
  }

  /** A date written with `≤` sorts before any date that starts with a
      digit, whatever follows. */
  lemma LessEqualSignFirst(a: string, b: string)
    requires b != [] && IsDigit(b[0])
    ensures LexLe(['≤'] + a, b) && !LexLe(b, ['≤'] + a)
  {
    assert (['≤'] + a)[0] == '≤';
  }

  /** Two strings ordered both ways are equal. */
  lemma {:induction false} LexLeAntisymmetric(a: string, b: string)
    requires LexLe(a, b) && LexLe(b, a)
    ensures a == b
  {
    if a != [] && b != [] {
      LexLeAntisymmetric(a[1..], b[1..]);
      assert a == [a[0]] + a[1..] && b == [b[0]] + b[1..];
    }
  }

  lemma {:induction false} LexLeTotal(a: string, b: string)
    ensures LexLe(a, b) || LexLe(b, a)
  {
    if a != [] && b != [] && a[0] == b[0] {
      LexLeTotal(a[1..], b[1..]);
    }
  }

  lemma {:induction false} LexLeTransitive(a: string, b: string, c: string)
    requires LexLe(a, b) && LexLe(b, c)
    ensures LexLe(a, c)
  {
    if a != [] && b != [] && c != [] && a[0] == b[0] && b[0] == c[0] {
      LexLeTransitive(a[1..], b[1..], c[1..]);
    }
  }

  /** Ascending order of a string key. */
  function AscendingBy<T>(key: T -> string): (le: (T, T) -> bool)
  {
    (a: T, b: T) => LexLe(key(a), key(b))
  }

  /** Descending order of a string key. */
  function DescendingBy<T>(key: T -> string): (le: (T, T) -> bool)
  {
    (a: T, b: T) => LexLe(key(b), key(a))
  }

  lemma AscendingIsPreorder<T(!new)>(key: T -> string)
    ensures TotalPreorder(AscendingBy(key))
  {
    forall a: T, b: T ensures LexLe(key(a), key(b)) || LexLe(key(b), key(a)) {
      LexLeTotal(key(a), key(b));
    }
    forall a: T, b: T, c: T | LexLe(key(a), key(b)) && LexLe(key(b), key(c))
      ensures LexLe(key(a), key(c))
    {
      LexLeTransitive(key(a), key(b), key(c));
    }
  }

  lemma DescendingIsPreorder<T(!new)>(key: T -> string)
    ensures TotalPreorder(DescendingBy(key))
  {
    forall a: T, b: T ensures LexLe(key(b), key(a)) || LexLe(key(a), key(b)) {
      LexLeTotal(key(a), key(b));
    }
    forall a: T, b: T, c: T | LexLe(key(b), key(a)) && LexLe(key(c), key(b))
      ensures LexLe(key(c), key(a))
    {
      LexLeTransitive(key(c), key(b), key(a));
    }
  }

  /** Under a key order, the elements ranked equal to `v` are those with
      the same key: a stable sort by key keeps same-key entries in their
      original order. */
  lemma KeyTies<T>(key: T -> string, x: T, v: T)
    ensures EquivTo(AscendingBy(key), v)(x) <==> key(x) == key(v)
    ensures EquivTo(DescendingBy(key), v)(x) <==> key(x) == key(v)
  {
    if LexLe(key(x), key(v)) && LexLe(key(v), key(x)) {
      LexLeAntisymmetric(key(x), key(v));
    }
    if key(x) == key(v) {
      LexLeTotal(key(x), key(v));
    }
  }
}
