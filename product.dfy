/**
 * `product_dict(**matrix)`: every combination of one candidate value per
 * parameter, as `itertools.product` enumerates them (the last parameter varies
 * fastest), each zipped with the parameter names into a dictionary.
 */
module Product {
  import opened Dicts

  predicate Distinct<T(==)>(s: seq<T>) {
    forall i, j :: 0 <= i < j < |s| ==> s[i] != s[j]
  }

  /** A parameter matrix: the keyword arguments, names in declaration order, each with its candidate list. */
  type Matrix = m: seq<(Key, seq<int>)> | Distinct(KeyList(m))

  function Lists(m: Matrix): (ls: seq<seq<int>>)
    ensures |ls| == |m| && forall i :: 0 <= i < |m| ==> ls[i] == m[i].1
  {
    seq(|m|, i requires 0 <= i < |m| => m[i].1)
  }

  /** The product of the candidate-list lengths. */
  function Size(lists: seq<seq<int>>): nat {
    if lists == [] then 1 else |lists[0]| * Size(lists[1..])
  }

  /** Every `[h] + t`, with `h` running over `heads` in the outer loop and `t` over `tails` in the inner one. */
  function Prepend(heads: seq<int>, tails: seq<seq<int>>): (r: seq<seq<int>>)
    ensures |r| == |heads| * |tails|
  {
    if heads == [] then []
    else
      var first := seq(|tails|, j requires 0 <= j < |tails| => [heads[0]] + tails[j]);
      var rest := Prepend(heads[1..], tails);
      assert |heads| * |tails| == |tails| + (|heads| - 1) * |tails|;
      first + rest
  }

  /** Each member of `Prepend(heads, tails)` is one head followed by one tail. */
  lemma {:induction false} PrependMembers(heads: seq<int>, tails: seq<seq<int>>)
    ensures forall c :: c in Prepend(heads, tails) ==> |c| > 0 && c[0] in heads && c[1..] in tails
  {
    if heads != [] {
      var first := seq(|tails|, j requires 0 <= j < |tails| => [heads[0]] + tails[j]);
      var rest := Prepend(heads[1..], tails);
      PrependMembers(heads[1..], tails);
      assert Prepend(heads, tails) == first + rest;
      forall c | c in first + rest ensures |c| > 0 && c[0] in heads && c[1..] in tails {
        if c in first {
          var j :| 0 <= j < |tails| && first[j] == c;
          assert c[1..] == tails[j];
        } else {
          assert c in rest;
        }
      }
    }
  }

  /** `itertools.product(*lists)`: all choices of one value per list. */
  function Combinations(lists: seq<seq<int>>): (r: seq<seq<int>>)
    ensures |r| == Size(lists)
    ensures forall c :: c in r ==> |c| == |lists| && forall i :: 0 <= i < |lists| ==> c[i] in lists[i]
  {
    if lists == [] then [[]]
    else
      var rest := Combinations(lists[1..]);
      var r := Prepend(lists[0], rest);
      PrependMembers(lists[0], rest);
      assert forall c :: c in r ==> |c| == |lists| && forall i :: 0 <= i < |lists| ==> c[i] in lists[i] by {
        forall c, i | c in r && 0 <= i < |lists| ensures |c| == |lists| && c[i] in lists[i] {
          assert c[1..] in rest;
          if i > 0 {
            assert c[i] == c[1..][i - 1];
          }
        }
      }
      r
  }

  /** `dict(zip(keys, values))` */
  function Zip(keys: seq<Key>, values: seq<int>): (d: Dict)
    requires Distinct(keys) && |keys| == |values|
    ensures KeyList(d) == keys
    ensures forall i :: 0 <= i < |d| ==> d[i].1 == Int(values[i])
  {
    seq(|keys|, i requires 0 <= i < |keys| => (keys[i], Int(values[i])))
  }

  /** `d` has exactly the matrix's names, in its order, each with a value from that name's candidates. */
  predicate Drawn(m: Matrix, d: Dict) {
    && KeyList(d) == KeyList(m)
    && forall i :: 0 <= i < |m| ==> d[i].1.Int? && d[i].1.i in m[i].1
  }

  /** `list(product_dict(**m))` */
  function ProductDict(m: Matrix): (r: seq<Dict>)
    ensures |r| == Size(Lists(m))
    ensures forall d :: d in r ==> Drawn(m, d)
  {
    var lists := Lists(m);
    var combos := Combinations(lists);
    var r := seq(|combos|, k requires 0 <= k < |combos| => (assert combos[k] in combos; Zip(KeyList(m), combos[k])));
    assert forall d :: d in r ==> Drawn(m, d) by {
      forall d: Dict | d in r ensures Drawn(m, d) {
        var k :| 0 <= k < |r| && r[k] == d;
        assert combos[k] in combos;
        forall i | 0 <= i < |m| ensures d[i].1.Int? && d[i].1.i in m[i].1 {
          assert d[i].1 == Int(combos[k][i]);
          assert combos[k][i] in lists[i];
        }
      }
    }
    r
  }

  /** One position into each candidate list. */
  predicate ValidIndex(lists: seq<seq<int>>, idx: seq<nat>) {
    |idx| == |lists| && forall i :: 0 <= i < |lists| ==> idx[i] < |lists[i]|
  }

  /** The combination that picks position `idx[i]` of list `i`. */
  function Choose(lists: seq<seq<int>>, idx: seq<nat>): (c: seq<int>)
    requires ValidIndex(lists, idx)
    ensures |c| == |lists| && forall i :: 0 <= i < |lists| ==> c[i] == lists[i][idx[i]]
  {
    seq(|lists|, i requires 0 <= i < |lists| => lists[i][idx[i]])
  }

  /** Mixed-radix number of `idx`: the first list is the most significant digit, the last the least. */
  function Rank(lists: seq<seq<int>>, idx: seq<nat>): nat
    requires |idx| == |lists|
  {
    if lists == [] then 0 else idx[0] * Size(lists[1..]) + Rank(lists[1..], idx[1..])
  }

  /** Lexicographic order on index vectors. */
  predicate LexLess(a: seq<nat>, b: seq<nat>)
    requires |a| == |b|
  {
    a != [] && (a[0] < b[0] || (a[0] == b[0] && LexLess(a[1..], b[1..])))
  }

  lemma MulMono(a: nat, b: nat, c: nat)
    requires a <= b
    ensures a * c <= b * c
  {
  }

  lemma {:induction false} PrependAt(heads: seq<int>, tails: seq<seq<int>>, i: nat, j: nat)
    requires i < |heads| && j < |tails|
    ensures i * |tails| + j < |heads| * |tails|
    ensures Prepend(heads, tails)[i * |tails| + j] == [heads[i]] + tails[j]
  {
    PositionBounds(i, j, |tails|, |heads|);
    if i == 0 {
      PrependFirst(heads, tails, j);
    } else {
      var later, pos := heads[1..], i * |tails| + j;
      calc {
        Prepend(heads, tails)[pos];
        { PrependRest(heads, tails, pos); }
        Prepend(later, tails)[(i - 1) * |tails| + j];
        { PrependAt(later, tails, i - 1, j); }
        [later[i - 1]] + tails[j];
      }
    }
  }

  /** The first block of `Prepend` puts the first head before each tail. */
  lemma PrependFirst(heads: seq<int>, tails: seq<seq<int>>, j: nat)
    requires heads != [] && j < |tails|
    ensures |tails| <= |Prepend(heads, tails)|
    ensures Prepend(heads, tails)[j] == [heads[0]] + tails[j]
  {
    MulMono(1, |heads|, |tails|);
  }

  /** After the first block, `Prepend` continues with the remaining heads. */
  lemma PrependRest(heads: seq<int>, tails: seq<seq<int>>, k: nat)
    requires heads != [] && |tails| <= k < |heads| * |tails|
    ensures Prepend(heads, tails)[k] == Prepend(heads[1..], tails)[k - |tails|]
  {
  }

  /** Where block `i`, offset `j` of a sequence of `h` blocks of length `n` lies. */
  lemma PositionBounds(i: nat, j: nat, n: nat, h: nat)
    requires i < h && j < n
    ensures i * n + j < h * n
    ensures i > 0 ==> n <= i * n + j && i * n + j - n == (i - 1) * n + j
  {
    MulMono(i + 1, h, n);
    assert (i + 1) * n == i * n + n;
  }

  /** The combination at position `Rank(lists, idx)` is the one choosing `idx`. */
  lemma {:induction false} CombinationAt(lists: seq<seq<int>>, idx: seq<nat>)
    requires ValidIndex(lists, idx)
    ensures Rank(lists, idx) < Size(lists)
    ensures Combinations(lists)[Rank(lists, idx)] == Choose(lists, idx)
  {
    if lists != [] {
      var tail, rest := lists[1..], idx[1..];
      assert ValidIndex(tail, rest);
      var combos := Combinations(tail);
      var r := Rank(tail, rest);
      CombinationAt(tail, rest);
      assert Rank(lists, idx) == idx[0] * |combos| + r;
      assert Combinations(lists) == Prepend(lists[0], combos);
      PrependAt(lists[0], combos, idx[0], r);
      ChooseCons(lists, idx);
      calc {
        Combinations(lists)[Rank(lists, idx)];
        Prepend(lists[0], combos)[idx[0] * |combos| + r];
        [lists[0][idx[0]]] + combos[r];
        [lists[0][idx[0]]] + Choose(tail, rest);
      }
    }
  }

  lemma ChooseCons(lists: seq<seq<int>>, idx: seq<nat>)
    requires ValidIndex(lists, idx) && lists != []
    ensures ValidIndex(lists[1..], idx[1..])
    ensures Choose(lists, idx) == [lists[0][idx[0]]] + Choose(lists[1..], idx[1..])
  {
    assert ValidIndex(lists[1..], idx[1..]);
  }

  /** Positions grow with the index vectors in lexicographic order: the last list varies fastest. */
  lemma {:induction false} RankMonotone(lists: seq<seq<int>>, a: seq<nat>, b: seq<nat>)
    requires ValidIndex(lists, a) && ValidIndex(lists, b) && LexLess(a, b)
    ensures Rank(lists, a) < Rank(lists, b)
  {
    var tail, ta, tb := lists[1..], a[1..], b[1..];
    assert ValidIndex(tail, ta) && ValidIndex(tail, tb);
    var s := Size(tail);
    assert Rank(lists, a) == a[0] * s + Rank(tail, ta);
    assert Rank(lists, b) == b[0] * s + Rank(tail, tb);
    if a[0] < b[0] {
      CombinationAt(tail, ta);
      DigitLess(a[0], b[0], s, Rank(tail, ta), Rank(tail, tb));
    } else {
      RankMonotone(tail, ta, tb);
    }
  }

  /** A smaller leading digit gives a smaller mixed-radix number, whatever the lower digits. */
  lemma DigitLess(a0: nat, b0: nat, s: nat, ra: nat, rb: nat)
    requires a0 < b0 && ra < s
    ensures a0 * s + ra < b0 * s + rb
  {
    MulMono(a0 + 1, b0, s);
    assert (a0 + 1) * s == a0 * s + s;
  }

  /** The product is empty exactly when some candidate list is empty. */
  lemma {:induction false} SizeZero(lists: seq<seq<int>>)
    ensures Size(lists) == 0 <==> exists i :: 0 <= i < |lists| && lists[i] == []
  {
    if lists != [] {
      SizeZero(lists[1..]);
      if Size(lists) == 0 && lists[0] != [] {
        var i :| 0 <= i < |lists[1..]| && lists[1..][i] == [];
        assert lists[i + 1] == [];
      }
      if exists i :: 0 <= i < |lists| && lists[i] == [] {
        var i :| 0 <= i < |lists| && lists[i] == [];
        if i > 0 {
          assert lists[1..][i - 1] == [];
        }
      }
    }
  }

  lemma {:induction false} PrependDistinct(heads: seq<int>, tails: seq<seq<int>>)
    requires Distinct(heads) && Distinct(tails)
    ensures Distinct(Prepend(heads, tails))
  {
    if heads != [] {
      var first := seq(|tails|, j requires 0 <= j < |tails| => [heads[0]] + tails[j]);
      var rest := Prepend(heads[1..], tails);
      PrependDistinct(heads[1..], tails);
      PrependMembers(heads[1..], tails);
      assert Prepend(heads, tails) == first + rest;
      forall i, j | 0 <= i < j < |first| + |rest| ensures (first + rest)[i] != (first + rest)[j] {
        if j < |first| {
          assert first[i][1..] == tails[i] && first[j][1..] == tails[j];
        } else if i < |first| {
          assert rest[j - |first|] in rest;
          assert rest[j - |first|][0] in heads[1..];
        }
      }
    }
  }

  /** With no repeated candidate in any list, no combination repeats. */
  lemma {:induction false} CombinationsDistinct(lists: seq<seq<int>>)
    requires forall i :: 0 <= i < |lists| ==> Distinct(lists[i])
    ensures Distinct(Combinations(lists))
  {
    if lists != [] {
      CombinationsDistinct(lists[1..]);
      PrependDistinct(lists[0], Combinations(lists[1..]));
    }
  }

  lemma ZipIdentityInjective(keys: seq<Key>, u: seq<int>, v: seq<int>)
    requires Distinct(keys) && |keys| == |u| == |v|
    requires Identity(Zip(keys, u)) == Identity(Zip(keys, v))
    ensures u == v
  {
    var du, dv := Zip(keys, u), Zip(keys, v);
    forall i | 0 <= i < |u| ensures u[i] == v[i] {
      assert du[i] in Identity(dv);
      var j :| 0 <= j < |dv| && dv[j] == du[i];
    }
  }

  /** The dictionary at position `Rank(Lists(m), idx)` is the one choosing `idx`. */
  lemma ProductDictAt(m: Matrix, idx: seq<nat>)
    requires ValidIndex(Lists(m), idx)
    ensures Rank(Lists(m), idx) < |ProductDict(m)|
    ensures ProductDict(m)[Rank(Lists(m), idx)] == Zip(KeyList(m), Choose(Lists(m), idx))
  {
    CombinationAt(Lists(m), idx);
  }

  /** `product_dict` yields nothing exactly when some parameter has no candidates. */
  lemma ProductDictEmpty(m: Matrix)
    ensures ProductDict(m) == [] <==> exists i :: 0 <= i < |m| && m[i].1 == []
  {
    SizeZero(Lists(m));
    if exists i :: 0 <= i < |m| && m[i].1 == [] {
      var i :| 0 <= i < |m| && m[i].1 == [];
      assert Lists(m)[i] == [];
    }
  }

  /** With no repeated candidate in any list, the yielded dictionaries have pairwise different identities. */
  lemma ProductDictIdentitiesDistinct(m: Matrix)
    requires forall i :: 0 <= i < |m| ==> Distinct(m[i].1)
    ensures forall k, l :: 0 <= k < l < |ProductDict(m)| ==> Identity(ProductDict(m)[k]) != Identity(ProductDict(m)[l])
  {
    var lists := Lists(m);
    var combos := Combinations(lists);
    CombinationsDistinct(lists);
    var r := ProductDict(m);
    forall k, l | 0 <= k < l < |r| ensures Identity(r[k]) != Identity(r[l]) {
      assert combos[k] in combos && combos[l] in combos;
      assert r[k] == Zip(KeyList(m), combos[k]) && r[l] == Zip(KeyList(m), combos[l]);
      if Identity(r[k]) == Identity(r[l]) {
        ZipIdentityInjective(KeyList(m), combos[k], combos[l]);
      }
    }
  }

  /** The full sweep. */
  const DefaultMatrix: Matrix := [
    ("threads", [8, 12, 16, 20]),
    ("mpi_workers", [1, 4, 8, 16]),
    ("batch_size", [32, 64, 128, 256, 512]),
    ("loader_workers", [0, 1])
  ]

  /** The quick job that checks the driver works. */
  const TestMatrix: Matrix := [
    ("threads", [12, 16]),
    ("mpi_workers", [8]),
    ("batch_size", [32]),
    ("loader_workers", [1])
  ]

  lemma DefaultMatrixSize()
    ensures |ProductDict(DefaultMatrix)| == 160
  {
    var lists := Lists(DefaultMatrix);
    assert lists == [[8, 12, 16, 20], [1, 4, 8, 16], [32, 64, 128, 256, 512], [0, 1]];
    assert Size(lists[3..]) == 2;
    assert Size(lists[2..]) == 10;
    assert Size(lists[1..]) == 40;
  }

  lemma TestMatrixValues(lists: seq<seq<int>>)
    requires lists == Lists(TestMatrix)
    ensures |Combinations(lists)| == 2
    ensures Combinations(lists)[0] == [12, 8, 32, 1] && Combinations(lists)[1] == [16, 8, 32, 1]
  {
    assert lists == [[12, 16], [8], [32], [1]];
    assert Size(lists[3..]) == 1;
    assert Size(lists[2..]) == 1;
    assert Size(lists[1..]) == 1;
    var first: seq<nat>, second: seq<nat> := [0, 0, 0, 0], [1, 0, 0, 0];
    assert ValidIndex(lists, first) && ValidIndex(lists, second);
    assert Rank(lists[3..], second[3..]) == Rank(lists[3..], first[3..]) == 0;
    assert Rank(lists[2..], second[2..]) == Rank(lists[2..], first[2..]) == 0;
    assert Rank(lists[1..], second[1..]) == Rank(lists[1..], first[1..]) == 0;
    assert Rank(lists, first) == 0 && Rank(lists, second) == 1;
    assert Choose(lists, first) == [12, 8, 32, 1];
    assert Choose(lists, second) == [16, 8, 32, 1];
    CombinationAt(lists, first);
    CombinationAt(lists, second);
  }

  /** The test matrix yields exactly two dictionaries: `threads` 12, then `threads` 16, the other parameters fixed. */
  lemma TestMatrixCombinations(m: Matrix)
    requires m == TestMatrix
    ensures |ProductDict(m)| == 2
    ensures ProductDict(m)[0] == Zip(KeyList(m), [12, 8, 32, 1])
    ensures ProductDict(m)[1] == Zip(KeyList(m), [16, 8, 32, 1])
  {
    TestMatrixValues(Lists(m));
  }
}
