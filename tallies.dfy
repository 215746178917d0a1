/**
 * Counting over one column: the case-sensitive substring tallies behind
 * `str.contains(pattern, na=False).sum()`, and `value_counts()`, a count per
 * distinct non-missing value (missing values are dropped, not bucketed).
 */
module Tallies {
  import opened Wrappers
  import opened Strings
  import opened Survey
  import opened Seqs

  /** `Series.dropna()` on a text column. */
  function NonNull(col: seq<Option<string>>): (r: seq<string>)
    ensures |r| <= |col|
  {
    if |col| == 0 then []
    else
      var init := NonNull(col[..|col| - 1]);
      match col[|col| - 1]
      case None => init
      case Some(s) => init + [s]
  }

  /** A value counts for `pattern` when it is present and contains `pattern`. */
  predicate Matches(v: Option<string>, pattern: string)
  {
    v.Some? && Contains(v.value, pattern)
  }

  /** `col.str.contains(pattern, na=False).sum()` with a literal pattern: `str.contains`
      reads its pattern as a regular expression, which for a pattern without regex
      metacharacters (such as "Male" and "Female") is the substring test. */
  function CountContaining(col: seq<Option<string>>, pattern: string): (n: nat)
    ensures n <= |NonNull(col)|
  {
    if |col| == 0 then 0
    else CountContaining(col[..|col| - 1], pattern) + (if Matches(col[|col| - 1], pattern) then 1 else 0)
  }

  /** The test `pattern in entry` as a predicate on entries. */
  function HasPattern(pattern: string): string -> bool
  {
    entry => Contains(entry, pattern)
  }

  /** How many of the (non-missing) `entries` contain `pattern`. */
  function CountHits(entries: seq<string>, pattern: string): nat
  {
    Count(HasPattern(pattern), entries)
  }

  /** One more entry adds one exactly when it contains the pattern. */
  lemma CountHitsSnoc(entries: seq<string>, entry: string, pattern: string)
    ensures CountHits(entries + [entry], pattern)
         == CountHits(entries, pattern) + (if Contains(entry, pattern) then 1 else 0)
  {
    CountSnoc(HasPattern(pattern), entries, entry);
  }

  /** Counting with `na=False` is counting over the column with its missing values dropped. */
  lemma {:induction false} CountContainingDropsNulls(col: seq<Option<string>>, pattern: string)
    ensures CountContaining(col, pattern) == CountHits(NonNull(col), pattern)
  {
    if |col| > 0 {
      var init := col[..|col| - 1];
      CountContainingDropsNulls(init, pattern);
      if col[|col| - 1].Some? {
        CountHitsSnoc(NonNull(init), col[|col| - 1].value, pattern);
      }
    }
  }

  /** The substring count is the generic count of the entries that match. */
  lemma {:induction false} CountContainingIsCount(col: seq<Option<string>>, pattern: string)
    ensures CountContaining(col, pattern) == Count((v: Option<string>) => Matches(v, pattern), col)
  {
    if |col| > 0 {
      var init := col[..|col| - 1];
      CountContainingIsCount(init, pattern);
      assert init + [col[|col| - 1]] == col;
      CountSnoc((v: Option<string>) => Matches(v, pattern), init, col[|col| - 1]);
    }
  }

  /** Appending a value adds one when it is present and contains the pattern, and
      nothing otherwise: a missing value never counts, and a value counts at most
      once however often the pattern occurs in it. */
  lemma CountContainingAppend(col: seq<Option<string>>, v: Option<string>, pattern: string)
    ensures CountContaining(col + [v], pattern)
         == CountContaining(col, pattern) + (if v.Some? && Contains(v.value, pattern) then 1 else 0)
  {
  }

  /** The count over two stacked columns is the sum of their counts. */
  lemma {:induction false} CountContainingConcat(a: seq<Option<string>>, b: seq<Option<string>>, pattern: string)
    ensures CountContaining(a + b, pattern) == CountContaining(a, pattern) + CountContaining(b, pattern)
    decreases |b|
  {
    if |b| > 0 {
      var init := b[..|b| - 1];
      assert (a + b)[..|a + b| - 1] == a + init;
      CountContainingConcat(a, init, pattern);
    } else {
      assert a + b == a;
    }
  }

  // ------------------------------------------------------------ value_counts

  /** How many entries of `col` are exactly `Some(v)`. */
  function Occurrences(col: seq<Option<string>>, v: string): nat
  {
    if |col| == 0 then 0
    else Occurrences(col[..|col| - 1], v) + (if col[|col| - 1] == Some(v) then 1 else 0)
  }

  /** One row of a `value_counts().reset_index()` frame. */
  datatype Tally = Tally(value: string, count: nat)

  /** The tally for `v`, or 0 when `v` has no row. */
  function CountOf(tallies: seq<Tally>, v: string): nat
  {
    if |tallies| == 0 then 0
    else if tallies[0].value == v then tallies[0].count
    else CountOf(tallies[1..], v)
  }

  predicate HasRow(tallies: seq<Tally>, v: string)
  {
    exists i :: 0 <= i < |tallies| && tallies[i].value == v
  }

  lemma HasRowCons(t: Tally, tallies: seq<Tally>)
    ensures forall w :: HasRow([t] + tallies, w) <==> t.value == w || HasRow(tallies, w)
  {
    forall w ensures HasRow([t] + tallies, w) <==> t.value == w || HasRow(tallies, w) {
      if HasRow(tallies, w) {
        var i :| 0 <= i < |tallies| && tallies[i].value == w;
        assert ([t] + tallies)[i + 1].value == w;
      }
      assert ([t] + tallies)[0].value == t.value;
    }
  }

  /** No value has two rows. */
  predicate DistinctValues(tallies: seq<Tally>)
  {
    forall i, j :: 0 <= i < j < |tallies| ==> tallies[i].value != tallies[j].value
  }

  function SumCounts(tallies: seq<Tally>): nat
  {
    if |tallies| == 0 then 0 else tallies[0].count + SumCounts(tallies[1..])
  }

  /** Record one more occurrence of `v`: its row goes up by one, or a new row is added at the end. */
  function Bump(tallies: seq<Tally>, v: string): seq<Tally>
  {
    if |tallies| == 0 then [Tally(v, 1)]
    else if tallies[0].value == v then [tallies[0].(count := tallies[0].count + 1)] + tallies[1..]
    else [tallies[0]] + Bump(tallies[1..], v)
  }

  /** `value_counts()`: a row per distinct non-missing value, in order of first appearance. */
  function ValueCounts(col: seq<Option<string>>): seq<Tally>
  {
    if |col| == 0 then []
    else
      var tallies := ValueCounts(col[..|col| - 1]);
      match col[|col| - 1]
      case None => tallies
      case Some(v) => Bump(tallies, v)
  }

  /** The rows after a bump: the old ones and one for `v`. */
  lemma {:induction false} BumpRows(tallies: seq<Tally>, v: string)
    ensures forall w :: HasRow(Bump(tallies, v), w) <==> HasRow(tallies, w) || w == v
  {
    if |tallies| == 0 {
      assert Bump(tallies, v)[0].value == v;
    } else {
      var rest := tallies[1..];
      BumpRows(rest, v);
      assert tallies == [tallies[0]] + rest;
      HasRowCons(tallies[0], rest);
      if tallies[0].value == v {
        HasRowCons(Bump(tallies, v)[0], rest);
      } else {
        HasRowCons(tallies[0], Bump(rest, v));
      }
    }
  }

  /** A bump adds one to the count of `v` and to no other count. */
  lemma {:induction false} BumpCounts(tallies: seq<Tally>, v: string, w: string)
    ensures CountOf(Bump(tallies, v), w) == CountOf(tallies, w) + (if w == v then 1 else 0)
  {
    if |tallies| > 0 && tallies[0].value != v {
      BumpCounts(tallies[1..], v, w);
    }
  }

  lemma {:induction false} BumpKeepsDistinct(tallies: seq<Tally>, v: string)
    requires DistinctValues(tallies)
    ensures DistinctValues(Bump(tallies, v))
  {
    if |tallies| > 0 && tallies[0].value != v {
      var rest := tallies[1..];
      var b := Bump(tallies, v);
      BumpKeepsDistinct(rest, v);
      BumpRows(rest, v);
      forall i | 0 < i < |b| ensures b[i].value != b[0].value {
        assert b[i] == Bump(rest, v)[i - 1];
        assert HasRow(Bump(rest, v), b[i].value);
        if b[i].value != v {
          var j :| 0 <= j < |rest| && rest[j].value == b[i].value;
          assert tallies[j + 1].value == b[i].value;
        }
      }
      assert forall i, j :: 0 < i < j < |b| ==> b[i] == Bump(rest, v)[i - 1] && b[j] == Bump(rest, v)[j - 1];
    }
  }

  lemma {:induction false} BumpKeepsPositive(tallies: seq<Tally>, v: string)
    requires forall i :: 0 <= i < |tallies| ==> tallies[i].count > 0
    ensures forall i :: 0 <= i < |Bump(tallies, v)| ==> Bump(tallies, v)[i].count > 0
  {
    if |tallies| > 0 && tallies[0].value != v {
      BumpKeepsPositive(tallies[1..], v);
    }
  }

  lemma {:induction false} BumpSum(tallies: seq<Tally>, v: string)
    ensures SumCounts(Bump(tallies, v)) == SumCounts(tallies) + 1
  {
    if |tallies| > 0 {
      if tallies[0].value == v {
        assert Bump(tallies, v)[1..] == tallies[1..];
      } else {
        BumpSum(tallies[1..], v);
        assert Bump(tallies, v)[1..] == Bump(tallies[1..], v);
      }
    }
  }

  /** Every value that occurs has exactly one row, no other value has one, and each
      row holds its value's exact number of occurrences, which is positive. */
  lemma {:induction false} ValueCountsExact(col: seq<Option<string>>)
    ensures DistinctValues(ValueCounts(col))
    ensures forall v :: HasRow(ValueCounts(col), v) <==> Some(v) in col
    ensures forall v :: CountOf(ValueCounts(col), v) == Occurrences(col, v)
    ensures forall i :: 0 <= i < |ValueCounts(col)| ==> ValueCounts(col)[i].count > 0
  {
    if |col| > 0 {
      var init := col[..|col| - 1];
      ValueCountsExact(init);
      assert col == init + [col[|col| - 1]];
      assert forall v :: Some(v) in col <==> Some(v) in init || col[|col| - 1] == Some(v);
      if col[|col| - 1].Some? {
        var v := col[|col| - 1].value;
        BumpRows(ValueCounts(init), v);
        forall w ensures CountOf(ValueCounts(col), w) == Occurrences(col, w) {
          BumpCounts(ValueCounts(init), v, w);
        }
        BumpKeepsDistinct(ValueCounts(init), v);
        BumpKeepsPositive(ValueCounts(init), v);
      }
    }
  }

  /** The counts add up to the number of non-missing entries. */
  lemma {:induction false} ValueCountsTotal(col: seq<Option<string>>)
    ensures SumCounts(ValueCounts(col)) == |NonNull(col)|
  {
    if |col| > 0 {
      var init := col[..|col| - 1];
      ValueCountsTotal(init);
      if col[|col| - 1].Some? {
        BumpSum(ValueCounts(init), col[|col| - 1].value);
      }
    }
  }

  // ----------------------------------------------------------- gender totals

  /** Rows whose gender contains "Male" (case-sensitive: "Female" does not). */
  function TotalMales(t: Table): (n: nat)
    ensures n <= |t|
  {
    CountContaining(Genders(t), "Male")
  }

  /** Rows whose gender contains "Female". */
  function TotalFemales(t: Table): (n: nat)
    ensures n <= |t|
  {
    CountContaining(Genders(t), "Female")
  }

  /** The match is case-sensitive: "Female" counts as female and not as male. */
  lemma GenderLabelsAreCaseSensitive()
    ensures Matches(Some("Female"), "Female")
    ensures !Matches(Some("Female"), "Male")
    ensures Matches(Some("Male"), "Male")
    ensures !Matches(None, "Male") && !Matches(None, "Female")
  {
    ContainsIffOccurs("Female", "Male");
    forall i ensures !OccursAt("Female", "Male", i) {
      if 0 <= i <= 2 {
        assert "Female"[i] != 'M';
      }
    }
  }
}
