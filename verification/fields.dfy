/**
 * write_data of src/VTKWriter.py: one FIELD section per results block, with
 * the values of the numnod smallest node ids, infinities and NaNs written as
 * 0.0 and counted per kind.
 */
module Fields {
  import opened Wrappers
  import opened Frd
  import opened Sorting

  /** The two kinds of replaced value, keyed 'Inf' and 'NaN' in the source. */
  datatype NonFinite = Inf | Nan

  /** Logged warnings: values converted to 0.0, or a block with no data. */
  datatype Warning = ConvertedToZero(kind: NonFinite, count: nat) | NoData(field: string)

  /**
   * A FIELD section: 'FIELD <name> 1', '<name> <ncomp> <numnod> double',
   * then one row of written values per node.
   */
  datatype Field = Field(name: string, components: nat, numnod: nat, rows: seq<seq<real>>)

  /** The section and the warnings logged while writing it. */
  datatype FieldOutput = FieldOutput(field: Field, warnings: seq<Warning>)

  /** The number written for a value: the value itself if finite, else 0.0. */
  function Written(v: Value): (r: real)
    ensures v.Finite? ==> r == v.r
    ensures (v.IsInf() || v.IsNan()) ==> r == 0.0
  {
    if v.Finite? then v.r else 0.0
  }

  function WrittenRow(vs: seq<Value>): (r: seq<real>)
    ensures |r| == |vs| && forall j :: 0 <= j < |vs| ==> r[j] == Written(vs[j])
  {
    seq(|vs|, j requires 0 <= j < |vs| => Written(vs[j]))
  }

  function WrittenRows(sel: seq<seq<Value>>): (rows: seq<seq<real>>)
    ensures |rows| == |sel| && forall n :: 0 <= n < |sel| ==> rows[n] == WrittenRow(sel[n])
  {
    seq(|sel|, n requires 0 <= n < |sel| => WrittenRow(sel[n]))
  }

  function CountInf(vs: seq<Value>): nat
  {
    if vs == [] then 0 else CountInf(vs[..|vs| - 1]) + (if vs[|vs| - 1].IsInf() then 1 else 0)
  }

  function CountNan(vs: seq<Value>): nat
  {
    if vs == [] then 0 else CountNan(vs[..|vs| - 1]) + (if vs[|vs| - 1].IsNan() then 1 else 0)
  }

  /** All values of the rows, row after row. */
  function Flatten(rows: seq<seq<Value>>): seq<Value>
  {
    if rows == [] then [] else Flatten(rows[..|rows| - 1]) + rows[|rows| - 1]
  }

  /** The warnings logged after the rows: one per kind whose counter is positive, 'Inf' first. */
  function ConversionWarnings(inf: nat, nan: nat): (w: seq<Warning>)
    ensures |w| <= 2
    ensures forall x :: x in w ==> x.ConvertedToZero? && x.count > 0
  {
    (if inf > 0 then [ConvertedToZero(Inf, inf)] else []) + (if nan > 0 then [ConvertedToZero(Nan, nan)] else [])
  }

  /** sorted(b.results.keys()) */
  function SortedIds(b: ResultBlock): (ids: seq<int>)
    ensures |ids| == |b.results|
    ensures forall n :: 0 <= n < |ids| ==> ids[n] in b.results
  {
    var ids := SortedSet(b.results.Keys);
    assert |b.results.Keys| == |b.results|;
    assert forall n :: 0 <= n < |ids| ==> ids[n] in Elems(ids);
    ids
  }

  /** The results of the numnod smallest node ids of the block, ascending by id. */
  function SelectedResults(b: ResultBlock, numnod: nat): (sel: seq<seq<Value>>)
    requires numnod <= |b.results|
    ensures |sel| == numnod
    ensures forall n :: 0 <= n < numnod ==> sel[n] == b.results[SortedIds(b)[n]]
  {
    var ids := SortedIds(b);
    seq(numnod, n requires 0 <= n < numnod => b.results[ids[n]])
  }

  /**
   * The FIELD section of one block; reading past the sorted node ids (numnod
   * larger than the number of results) raises an IndexError.
   */
  function FieldData(b: ResultBlock, numnod: nat): (r: Result<FieldOutput, ConversionError>)
    ensures r.Ok? <==> numnod <= |b.results|
  {
    if numnod > |b.results| then Err(TooFewResults(b.name, |b.results|))
    else
      var sel := SelectedResults(b, numnod);
      Ok(FieldOutput(Field(b.name, |b.components|, numnod, WrittenRows(sel)),
                     ConversionWarnings(CountInf(Flatten(sel)), CountNan(Flatten(sel)))))
  }

  lemma FlattenStep(rows: seq<seq<Value>>, n: nat)
    requires n < |rows|
    ensures Flatten(rows[..n + 1]) == Flatten(rows[..n]) + rows[n]
  {
    assert rows[..n + 1][..n] == rows[..n];
  }

  lemma CountStep(vs: seq<Value>, j: nat)
    requires j < |vs|
    ensures CountInf(vs[..j + 1]) == CountInf(vs[..j]) + (if vs[j].IsInf() then 1 else 0)
    ensures CountNan(vs[..j + 1]) == CountNan(vs[..j]) + (if vs[j].IsNan() then 1 else 0)
  {
    assert vs[..j + 1][..j] == vs[..j];
  }

  lemma {:induction false} CountConcat(xs: seq<Value>, ys: seq<Value>)
    ensures CountInf(xs + ys) == CountInf(xs) + CountInf(ys)
    ensures CountNan(xs + ys) == CountNan(xs) + CountNan(ys)
    decreases |ys|
  {
    if ys == [] {
      assert xs + ys == xs;
    } else {
      var ys' := ys[..|ys| - 1];
      assert (xs + ys)[..|xs + ys| - 1] == xs + ys';
      CountConcat(xs, ys');
    }
  }

  /**
   * The inner loop of write_data over one node's values: each value is
   * written, an infinity or a NaN as 0.0, and the two counters carried in
   * are advanced by the number of each kind met.
   */
  method WriteValues(data: seq<Value>, inf0: nat, nan0: nat) returns (row: seq<real>, inf: nat, nan: nat)
    ensures row == WrittenRow(data)
    ensures inf == inf0 + CountInf(data) && nan == nan0 + CountNan(data)
  {
    row, inf, nan := [], inf0, nan0;
    var j := 0;
    while j < |data|
      invariant 0 <= j <= |data|
      invariant row == WrittenRow(data[..j])
      invariant inf == inf0 + CountInf(data[..j]) && nan == nan0 + CountNan(data[..j])
    {
      var d := data[j];
      CountStep(data, j);
      if d.IsInf() {
        d := Finite(0.0);
        inf := inf + 1;
      }
      if d.IsNan() {
        d := Finite(0.0);
        nan := nan + 1;
      }
      row := row + [d.r];
      j := j + 1;
    }
    assert data[..j] == data;
  }

  /** Counting over one more node's values adds that node's counts. */
  lemma CountAppend(sel: seq<seq<Value>>, data: seq<Value>)
    ensures CountInf(Flatten(sel + [data])) == CountInf(Flatten(sel)) + CountInf(data)
    ensures CountNan(Flatten(sel + [data])) == CountNan(Flatten(sel)) + CountNan(data)
  {
    assert (sel + [data])[..|sel|] == sel;
    assert Flatten(sel + [data]) == Flatten(sel) + data;
    CountConcat(Flatten(sel), data);
  }

  lemma FieldDataErr(b: ResultBlock, numnod: nat)
    requires numnod > |b.results|
    ensures FieldData(b, numnod) == Err(TooFewResults(b.name, |b.results|))
  {
  }

  lemma FieldDataOk(b: ResultBlock, numnod: nat, sel: seq<seq<Value>>, rows: seq<seq<real>>)
    requires numnod <= |b.results|
    requires |sel| == numnod && |rows| == numnod
    requires forall m :: 0 <= m < numnod ==> sel[m] == b.results[SortedIds(b)[m]] && rows[m] == WrittenRow(sel[m])
    ensures FieldData(b, numnod) == Ok(FieldOutput(Field(b.name, |b.components|, numnod, rows),
      ConversionWarnings(CountInf(Flatten(sel)), CountNan(Flatten(sel)))))
  {
    assert sel == SelectedResults(b, numnod);
    assert rows == WrittenRows(sel);
  }

  /**
   * The row loop of write_data: reads the results of nodes[0], nodes[1], ...
   * up to numnod, writing each row and counting infinities and NaNs; it
   * stops short (an IndexError) when nodes has fewer than numnod ids.
   */
  method WriteRows(b: ResultBlock, nodes: seq<int>, numnod: nat)
    returns (complete: bool, rows: seq<seq<real>>, inf: nat, nan: nat, ghost sel: seq<seq<Value>>)
    requires forall n :: 0 <= n < |nodes| ==> nodes[n] in b.results
    ensures complete <==> numnod <= |nodes|
    ensures complete ==> |rows| == numnod && |sel| == numnod
    ensures complete ==> forall m :: 0 <= m < numnod ==> sel[m] == b.results[nodes[m]] && rows[m] == WrittenRow(sel[m])
    ensures complete ==> inf == CountInf(Flatten(sel)) && nan == CountNan(Flatten(sel))
  {
    inf, nan := 0, 0;
    rows, sel := [], [];
    var n := 0;
    while n < numnod
      invariant 0 <= n <= numnod
      invariant n <= |nodes|
      invariant |rows| == n && |sel| == n
      invariant forall m :: 0 <= m < n ==> sel[m] == b.results[nodes[m]] && rows[m] == WrittenRow(sel[m])
      invariant inf == CountInf(Flatten(sel)) && nan == CountNan(Flatten(sel))
    {
      if n >= |nodes| {
        return false, rows, inf, nan, sel;
      }
      var data := b.results[nodes[n]];
      var row;
      row, inf, nan := WriteValues(data, inf, nan);
      CountAppend(sel, data);
      sel := sel + [data];
      rows := rows + [row];
      n := n + 1;
    }
    complete := true;
  }

  /**
   * Writes one FIELD section: the node ids sorted ascending, the first numnod
   * of them read in turn, every infinity and NaN written as 0.0 and counted.
   */
  method WriteData(b: ResultBlock, numnod: nat) returns (r: Result<FieldOutput, ConversionError>)
    ensures r == FieldData(b, numnod)
  {
    var nodes := SortedIds(b);
    var complete, rows, inf, nan, sel := WriteRows(b, nodes, numnod);
    if !complete {
      FieldDataErr(b, numnod);
      return Err(TooFewResults(b.name, |nodes|));
    }
    FieldDataOk(b, numnod, sel, rows);
    r := Ok(FieldOutput(Field(b.name, |b.components|, numnod, rows), ConversionWarnings(inf, nan)));
  }

  /** A FIELD section is named after its block and holds numnod rows of its components. */
  lemma FieldDataShape(b: ResultBlock, numnod: nat)
    requires FieldData(b, numnod).Ok?
    ensures var f := FieldData(b, numnod).value.field;
      f.name == b.name && f.components == |b.components| && f.numnod == numnod && |f.rows| == numnod
  {
  }

  /**
   * Row n of a FIELD section holds the written values of the node whose id
   * is the n-th smallest of the block: exactly n ids of the block lie below it.
   */
  lemma FieldRowIsNthSmallest(b: ResultBlock, numnod: nat, n: nat)
    requires numnod <= |b.results| && n < numnod
    ensures var id := SortedIds(b)[n];
      && id in b.results
      && |set k | k in b.results.Keys && k < id| == n
      && FieldData(b, numnod).value.field.rows[n] == WrittenRow(b.results[id])
  {
    assert |b.results.Keys| == |b.results|;
    RankInSortedSet(b.results.Keys, n);
  }

  /**
   * The counters count occurrences: the 'Inf' counter is the number of
   * infinities of either sign, the 'NaN' counter the number of NaNs.
   */
  lemma {:induction false} CountsAreMultiplicities(vs: seq<Value>)
    ensures CountInf(vs) == multiset(vs)[PosInf] + multiset(vs)[NegInf]
    ensures CountNan(vs) == multiset(vs)[NaN]
  {
    if vs != [] {
      var init := vs[..|vs| - 1];
      CountsAreMultiplicities(init);
      assert vs == init + [vs[|vs| - 1]];
      assert multiset(vs) == multiset(init) + multiset{vs[|vs| - 1]};
    }
  }

  /**
   * A FIELD section logs a warning for a kind exactly when some value of
   * that kind was replaced, with the number of such values, and nothing else.
   */
  lemma FieldDataWarnings(b: ResultBlock, numnod: nat)
    requires numnod <= |b.results|
    ensures var all := multiset(Flatten(SelectedResults(b, numnod)));
      var w := FieldData(b, numnod).value.warnings;
      && (forall c :: ConvertedToZero(Inf, c) in w <==> c > 0 && c == all[PosInf] + all[NegInf])
      && (forall c :: ConvertedToZero(Nan, c) in w <==> c > 0 && c == all[NaN])
      && (forall name :: NoData(name) !in w)
      && |w| == (if all[PosInf] + all[NegInf] > 0 then 1 else 0) + (if all[NaN] > 0 then 1 else 0)
      && (all[PosInf] + all[NegInf] > 0 ==> w[0] == ConvertedToZero(Inf, all[PosInf] + all[NegInf]))
  {
    var all := Flatten(SelectedResults(b, numnod));
    assert FieldData(b, numnod).value.warnings == ConversionWarnings(CountInf(all), CountNan(all));
    CountsAreMultiplicities(all);
    WarningsPerKind(CountInf(all), CountNan(all));
  }

  /** One warning per kind with a positive counter, 'Inf' before 'NaN', and nothing else. */
  lemma WarningsPerKind(inf: nat, nan: nat)
    ensures forall c :: ConvertedToZero(Inf, c) in ConversionWarnings(inf, nan) <==> c > 0 && c == inf
    ensures forall c :: ConvertedToZero(Nan, c) in ConversionWarnings(inf, nan) <==> c > 0 && c == nan
    ensures forall name :: NoData(name) !in ConversionWarnings(inf, nan)
    ensures |ConversionWarnings(inf, nan)| == (if inf > 0 then 1 else 0) + (if nan > 0 then 1 else 0)
    ensures inf > 0 ==> ConversionWarnings(inf, nan)[0] == ConvertedToZero(Inf, inf)
  {
  }

}
