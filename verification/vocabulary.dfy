/** The per-column category vocabulary of `HousingData.init` and the ordinal
    encoding built on it: the distinct values a categorical column takes,
    sorted ascending, and each value replaced by its position in that list. */
module Vocabulary {
  import opened Results
  import Collections
  import Transpose

  predicate StrictlyAscending(xs: seq<int>)
  {
    forall i, j :: 0 <= i < j < |xs| ==> xs[i] < xs[j]
  }

  /** `v` is a vocabulary for `values`: ascending, without repeats, holding
      exactly the values in the set. */
  predicate IsVocabularyOf(v: seq<int>, values: set<int>)
  {
    StrictlyAscending(v) && Collections.Elements(v) == values
  }

  /** On an ascending sequence, comparing entries is comparing positions. */
  lemma AscendingPositions(v: seq<int>, i: nat, j: nat)
    requires StrictlyAscending(v) && i < |v| && j < |v|
    ensures v[i] < v[j] <==> i < j
    ensures v[i] == v[j] <==> i == j
  {
  }

  /** Every non-empty finite set of integers has a least element. */
  lemma {:induction false} Minimum(s: set<int>) returns (m: int)
    requires s != {}
    ensures m in s && forall y :: y in s ==> m <= y
    decreases |s|
  {
    Collections.NonEmptyHasMember(s);
    var x :| x in s;
    var rest := s - {x};
    if rest == {} {
      m := x;
      assert s == {x};
    } else {
      var m' := Minimum(rest);
      m := if x < m' then x else m';
      forall y | y in s
        ensures m <= y
      {
        if y != x {
          assert y in rest;
        }
      }
    }
  }

  lemma MinimumExists(s: set<int>)
    requires s != {}
    ensures exists m :: m in s && forall y :: y in s ==> m <= y
  {
    var m := Minimum(s);
  }

  /** The first entry of a non-empty vocabulary is its least value. */
  lemma FirstIsLeast(v: seq<int>)
    requires StrictlyAscending(v) && v != []
    ensures forall y :: y in v ==> v[0] <= y
  {
  }

  /** A sequence without values is empty. */
  lemma NoElements(xs: seq<int>)
    requires Collections.Elements(xs) == {}
    ensures xs == []
  {
    if xs != [] {
      Collections.InElements(xs, 0);
    }
  }

  /** There is only one vocabulary for a set of values: two ascending
      sequences without repeats that hold the same values are equal. */
  lemma {:induction false} VocabularyUnique(a: seq<int>, b: seq<int>, values: set<int>)
    requires IsVocabularyOf(a, values) && IsVocabularyOf(b, values)
    ensures a == b
    decreases |a|
  {
    if a == [] {
      NoElements(b);
    } else {
      assert a[0] in Collections.Elements(b);
      assert b != [];
      assert b[0] in Collections.Elements(a);
      FirstIsLeast(a);
      FirstIsLeast(b);
      assert a[0] == b[0];
      var rest := values - {a[0]};
      assert Collections.Elements(a[1..]) == rest by {
        assert a == [a[0]] + a[1..];
      }
      assert Collections.Elements(b[1..]) == rest by {
        assert b == [b[0]] + b[1..];
      }
      VocabularyUnique(a[1..], b[1..], rest);
      assert a == [a[0]] + a[1..] && b == [b[0]] + b[1..];
    }
  }

  /** Swift's `firstIndex(of:)`: the first position holding `x`, if any. */
  function FirstIndexOf(xs: seq<int>, x: int): (r: Option<nat>)
    ensures r.None? <==> x !in xs
    ensures r.Some? ==> r.value < |xs| && xs[r.value] == x
    ensures r.Some? ==> forall j :: 0 <= j < r.value ==> xs[j] != x
  {
    if xs == [] then None
    else if xs[0] == x then Some(0)
    else
      match FirstIndexOf(xs[1..], x)
      case None => None
      case Some(i) => Some(i + 1)
  }

  /** `vocabulary.firstIndex(of: x)!`: for a value the vocabulary holds, the
      force-unwrap never fails and yields the position of the value. */
  function Ordinal(v: seq<int>, x: int): (o: nat)
    requires x in v
    ensures o < |v| && v[o] == x
  {
    FirstIndexOf(v, x).value
  }

  /** On a vocabulary the encoding is strictly order-preserving, and hence
      one-to-one. */
  lemma OrdinalOrderPreserving(v: seq<int>, x: int, y: int)
    requires StrictlyAscending(v) && x in v && y in v
    ensures x < y <==> Ordinal(v, x) < Ordinal(v, y)
    ensures x == y <==> Ordinal(v, x) == Ordinal(v, y)
  {
  }

  /** The state of the sort: `v` holds some values of `s` in ascending
      order, every one below the values still to place. */
  predicate SortedPrefix(v: seq<int>, rest: set<int>, s: set<int>)
  {
    && StrictlyAscending(v)
    && Collections.Elements(v) !! rest
    && Collections.Elements(v) + rest == s
    && (forall i, y :: 0 <= i < |v| && y in rest ==> v[i] < y)
  }

  /** Moving the least remaining value to the end keeps the state. */
  lemma AppendLeast(v: seq<int>, rest: set<int>, s: set<int>, m: int)
    requires SortedPrefix(v, rest, s)
    requires m in rest && forall y :: y in rest ==> m <= y
    ensures SortedPrefix(v + [m], rest - {m}, s)
  {
  }

  /** Swift's `sorted()` on a `Set<Int32>`: the values in ascending order.
      Each round moves the least remaining value to the end of the output. */
  method SortedSet(s: set<int>) returns (v: seq<int>)
    ensures IsVocabularyOf(v, s)
    ensures |v| == |s|
  {
    v := [];
    var rest := s;
    while rest != {}
      invariant SortedPrefix(v, rest, s)
      invariant |v| + |rest| == |s|
      decreases |rest|
    {
      MinimumExists(rest);
      var m :| m in rest && forall y :: y in rest ==> m <= y;
      AppendLeast(v, rest, s, m);
      v := v + [m];
      rest := rest - {m};
    }
  }

  /** The reduce of `HousingData.init` that gathers, for each categorical
      column, the list of its values (`total[k].append(value[k])` per row),
      starting from `Array(repeating: [], count: 2)`. */
  function Gather(rows: seq<seq<int>>): (g: seq<seq<int>>)
    requires forall i :: 0 <= i < |rows| ==> 2 <= |rows[i]|
    ensures |g| == 2
    ensures forall k :: 0 <= k < 2 ==> g[k] == Transpose.Column(rows, k)
  {
    if rows == [] then [[], []]
    else
      var front := Gather(rows[..|rows| - 1]);
      var last := rows[|rows| - 1];
      [front[0] + [last[0]], front[1] + [last[1]]]
  }

  /** `vocab` holds, for each of the two categorical columns, the vocabulary
      of the values the column takes over all rows. */
  predicate VocabulariesOf(vocab: seq<seq<int>>, rows: seq<seq<int>>)
    requires forall i :: 0 <= i < |rows| ==> 2 <= |rows[i]|
  {
    && |vocab| == 2
    && forall k :: 0 <= k < 2 ==> IsVocabularyOf(vocab[k], Collections.Elements(Transpose.Column(rows, k)))
  }

  /** `allCategoriesValues`: the gathered lists, each made a `Set` and
      sorted. */
  method AllCategoriesValues(rows: seq<seq<int>>) returns (v: seq<seq<int>>)
    requires forall i :: 0 <= i < |rows| ==> 2 <= |rows[i]|
    ensures VocabulariesOf(v, rows)
  {
    var g := Gather(rows);
    var v0 := SortedSet(Collections.Elements(g[0]));
    var v1 := SortedSet(Collections.Elements(g[1]));
    v := [v0, v1];
  }

  /** The loop `for record in categoricalFeatures` that inserts both values
      of every row into `categoricalValues`, starting from two empty sets. */
  method CollectValues(rows: seq<seq<int>>) returns (values: seq<set<int>>)
    requires forall i :: 0 <= i < |rows| ==> 2 <= |rows[i]|
    ensures |values| == 2
    ensures forall k :: 0 <= k < 2 ==> values[k] == Collections.Elements(Transpose.Column(rows, k))
  {
    values := [{}, {}];
    var i := 0;
    while i < |rows|
      invariant 0 <= i <= |rows|
      invariant |values| == 2
      invariant forall k :: 0 <= k < 2 ==> values[k] == Collections.Elements(Transpose.Column(rows[..i], k))
    {
      forall k | 0 <= k < 2
        ensures Collections.Elements(Transpose.Column(rows[..i + 1], k))
             == Collections.Elements(Transpose.Column(rows[..i], k)) + {rows[i][k]}
      {
        assert Transpose.Column(rows[..i + 1], k) == Transpose.Column(rows[..i], k) + [rows[i][k]];
      }
      values := [values[0] + {rows[i][0]}, values[1] + {rows[i][1]}];
      i := i + 1;
    }
    assert rows[..i] == rows;
  }

  /** `sortedCategoricalValues`: each collected set, sorted. */
  method SortedCategoricalValues(rows: seq<seq<int>>) returns (v: seq<seq<int>>)
    requires forall i :: 0 <= i < |rows| ==> 2 <= |rows[i]|
    ensures VocabulariesOf(v, rows)
  {
    var values := CollectValues(rows);
    var v0 := SortedSet(values[0]);
    var v1 := SortedSet(values[1]);
    v := [v0, v1];
  }

  /** The two constructions give the same lists: there is only one
      vocabulary per column. */
  lemma VocabulariesAgree(rows: seq<seq<int>>, a: seq<seq<int>>, b: seq<seq<int>>)
    requires forall i :: 0 <= i < |rows| ==> 2 <= |rows[i]|
    requires VocabulariesOf(a, rows) && VocabulariesOf(b, rows)
    ensures a == b
  {
    VocabularyUnique(a[0], b[0], Collections.Elements(Transpose.Column(rows, 0)));
    VocabularyUnique(a[1], b[1], Collections.Elements(Transpose.Column(rows, 1)));
  }

  /** Every row's categorical value is in its column's vocabulary, so
      `firstIndex(of:)!` never finds nothing. */
  lemma RowsInVocabulary(rows: seq<seq<int>>, vocab: seq<seq<int>>)
    requires forall i :: 0 <= i < |rows| ==> 2 <= |rows[i]|
    requires VocabulariesOf(vocab, rows)
    ensures forall i, k :: 0 <= i < |rows| && 0 <= k < 2 ==> rows[i][k] in vocab[k]
  {
    forall i, k | 0 <= i < |rows| && 0 <= k < 2
      ensures rows[i][k] in vocab[k]
    {
      Collections.InElements(Transpose.Column(rows, k), i);
    }
  }

  /** `ordinalCategoricalFeatures`: both categorical cells of every row
      replaced by their position in the column's vocabulary. */
  function OrdinalEncode(rows: seq<seq<int>>, vocab: seq<seq<int>>): (r: seq<seq<int>>)
    requires |vocab| == 2
    requires forall i :: 0 <= i < |rows| ==> 2 <= |rows[i]|
    requires forall i, k :: 0 <= i < |rows| && 0 <= k < 2 ==> rows[i][k] in vocab[k]
    ensures |r| == |rows|
    ensures forall i :: 0 <= i < |rows| ==> |r[i]| == 2
    ensures forall i, k :: 0 <= i < |rows| && 0 <= k < 2 ==>
      0 <= r[i][k] < |vocab[k]| && vocab[k][r[i][k]] == rows[i][k]
    ensures forall i, k :: 0 <= i < |rows| && 0 <= k < 2 ==> r[i][k] == Ordinal(vocab[k], rows[i][k])
  {
    seq(|rows|, i requires 0 <= i < |rows| => [Ordinal(vocab[0], rows[i][0]), Ordinal(vocab[1], rows[i][1])])
  }

  /** With a vocabulary, the encoding is one-to-one on each column and
      hits every position: code `o` below the vocabulary's size is the code
      of some row. */
  lemma OrdinalsDense(rows: seq<seq<int>>, vocab: seq<seq<int>>, k: nat, o: nat)
    requires forall i :: 0 <= i < |rows| ==> 2 <= |rows[i]|
    requires VocabulariesOf(vocab, rows)
    requires k < 2 && o < |vocab[k]|
    ensures forall i :: 0 <= i < |rows| ==> rows[i][k] in vocab[k]
    ensures exists i :: 0 <= i < |rows| && Ordinal(vocab[k], rows[i][k]) == o
  {
    var v := vocab[k];
    var col := Transpose.Column(rows, k);
    RowsInVocabulary(rows, vocab);
    Collections.InElements(v, o);
    var i :| 0 <= i < |col| && col[i] == v[o];
    AscendingPositions(v, Ordinal(v, rows[i][k]), o);
  }

  /** A vocabulary is never longer than the column it is drawn from, so the
      ordinals stay below the row count (and fit `Int32` for at most 2^31
      rows). */
  lemma VocabularyNoLongerThanColumn(xs: seq<int>, v: seq<int>)
    requires IsVocabularyOf(v, Collections.Elements(xs))
    ensures |v| <= |xs|
  {
    AscendingSize(v);
    ElementsSize(xs);
  }

  /** An ascending sequence has as many values as entries. */
  lemma {:induction false} AscendingSize(v: seq<int>)
    requires StrictlyAscending(v)
    ensures |Collections.Elements(v)| == |v|
  {
    if v != [] {
      var front := v[..|v| - 1];
      AscendingSize(front);
      assert v == front + [v[|v| - 1]];
      assert Collections.Elements(v) == Collections.Elements(front) + {v[|v| - 1]};
      assert v[|v| - 1] !in Collections.Elements(front);
    }
  }

  lemma {:induction false} ElementsSize(xs: seq<int>)
    ensures |Collections.Elements(xs)| <= |xs|
  {
    if xs != [] {
      ElementsSize(xs[..|xs| - 1]);
      assert xs == xs[..|xs| - 1] + [xs[|xs| - 1]];
      assert Collections.Elements(xs) == Collections.Elements(xs[..|xs| - 1]) + {xs[|xs| - 1]};
    }
  }

}
