/** `classify_categorical_columns` (Helpers/transformations.py): which text
    columns of a training frame can be ordinal-encoded safely, that is, whose
    values in the testing frame all occur in the training frame. */
module Classification {
  import opened Sequences
  import opened Frames

  /** The three lists the helper returns. */
  datatype Lists = Lists(categorical: seq<Label>, safe: seq<Label>, unsafe: seq<Label>)

  /** `set(test_values).issubset(set(train_values))`. */
  predicate Covered(testValues: seq<Value>, trainValues: seq<Value>)
  {
    Elements(testValues) <= Elements(trainValues)
  }

  /** Set containment of the values is containment of every single value. */
  lemma CoveredMeansEveryValueSeen(testValues: seq<Value>, trainValues: seq<Value>)
    ensures Covered(testValues, trainValues) <==> forall v :: v in testValues ==> v in trainValues
  {
    if forall v :: v in testValues ==> v in trainValues {
      forall v | v in Elements(testValues) ensures v in Elements(trainValues) {
      }
    }
  }

  /** `x` is the first label of `cats` missing from `names`. */
  predicate FirstMissing(x: Label, cats: seq<Label>, names: seq<Label>)
  {
    exists i :: 0 <= i < |cats| && cats[i] == x && x !in names &&
      forall j :: 0 <= j < i ==> cats[j] in names
  }

  /** Column `x` exists in both frames and its testing values are covered by its training values. */
  predicate IsSafe(x: Label, train: seq<Column>, test: seq<Column>)
  {
    match (Lookup(test, x), Lookup(train, x))
    case (Some(te), Some(tr)) => Covered(te.values, tr.values)
    case _ => false
  }

  /** The first list comprehension: labels of the `"object"` columns, in column order. */
  function CategoricalColumns(cols: seq<Column>): (r: seq<Label>)
    ensures IsSubsequence(r, Names(cols))
    ensures forall x :: x in r <==> exists c :: c in cols && c.name == x && c.tag == Object
  {
    if cols == [] then []
    else if cols[0].tag == Object then [cols[0].name] + CategoricalColumns(cols[1..])
    else CategoricalColumns(cols[1..])
  }

  /** The second list comprehension, over `cats` in order: `test[col]` fails on
      the first label the testing frame lacks; otherwise the covered labels are kept. */
  function SafeColumns(cats: seq<Label>, train: seq<Column>, test: seq<Column>): (r: Result<seq<Label>>)
    requires forall x :: x in cats ==> x in Names(train)
    ensures r.Success? <==> forall x :: x in cats ==> x in Names(test)
    ensures r.Failure? ==> r.error.MissingColumn? && FirstMissing(r.error.name, cats, Names(test))
    ensures r.Success? ==> IsSubsequence(r.value, cats)
    ensures r.Success? ==> forall x :: x in r.value <==> x in cats && IsSafe(x, train, test)
  {
    if cats == [] then Success([])
    else
      var x := cats[0];
      match Lookup(test, x)
      case None =>
        assert cats[0] in cats;
        Failure(MissingColumn(x))
      case Some(te) =>
        var rest := SafeColumns(cats[1..], train, test);
        assert cats == [x] + cats[1..];
        if rest.Failure? then
          FirstMissingSkipsPresent(rest.error.name, cats, Names(test));
          rest
        else
          assert IsSafe(x, train, test) == Covered(te.values, Lookup(train, x).value.values);
          if Covered(te.values, Lookup(train, x).value.values) then
            assert ([x] + rest.value)[1..] == rest.value;
            Success([x] + rest.value)
          else rest
  }

  /** A label present in `names` in front of `cats` does not change which label is first missing. */
  lemma FirstMissingSkipsPresent(y: Label, cats: seq<Label>, names: seq<Label>)
    requires cats != [] && cats[0] in names && FirstMissing(y, cats[1..], names)
    ensures FirstMissing(y, cats, names) && y in cats && y !in names
  {
    var i :| 0 <= i < |cats| - 1 && cats[1..][i] == y && y !in names &&
      forall j :: 0 <= j < i ==> cats[1..][j] in names;
    assert cats[i + 1] == y;
    assert forall j :: 0 <= j < i + 1 ==> cats[j] in names by {
      forall j | 0 <= j < i + 1 ensures cats[j] in names {
        if j > 0 {
          assert cats[j] == cats[1..][j - 1];
        }
      }
    }
  }

  /** `classify_categorical_columns(train_data, test_data)`. The third list is
      `list(set(categorical) - set(safe))`, whose order Python leaves unspecified. */
  ghost function Classify(train: Frame, test: Frame): (r: Result<Lists>)
    requires UniqueNames(train.columns) && UniqueNames(test.columns)
    ensures r.Failure? ==>
      && r.error.MissingColumn?
      && r.error.name in CategoricalColumns(train.columns)
      && r.error.name !in Names(test.columns)
    ensures r.Success? ==> |r.value.safe| + |r.value.unsafe| == |r.value.categorical|
  {
    var cats := CategoricalColumns(train.columns);
    match SafeColumns(cats, train.columns, test.columns)
    case Failure(e) => Failure(e)
    case Success(safe) =>
      var unsafe := SetToList(Elements(cats) - Elements(safe));
      SubsequenceNoDuplicates(cats, Names(train.columns));
      SplitCounts(cats, safe, unsafe);
      Success(Lists(cats, safe, unsafe))
  }

  /** The helper fails exactly when some categorical column is missing from the
      testing frame, and then with a KeyError naming the first such column. */
  lemma ClassifyFailsOnMissingColumn(train: Frame, test: Frame)
    requires UniqueNames(train.columns) && UniqueNames(test.columns)
    ensures Classify(train, test).Success? <==>
      forall c :: c in train.columns && c.tag == Object ==> c.name in Names(test.columns)
    ensures var r := Classify(train, test);
      r.Failure? ==>
        r.error.MissingColumn? && FirstMissing(r.error.name, CategoricalColumns(train.columns), Names(test.columns))
  {
    var cats := CategoricalColumns(train.columns);
    var safe := SafeColumns(cats, train.columns, test.columns);
    assert Classify(train, test).Success? == safe.Success?;
    assert safe.Failure? ==> Classify(train, test).error == safe.error;
  }

  /** `categorical_cols` lists the `"object"` columns of the training frame,
      in training-column order, and nothing else. */
  lemma ClassifyCategorical(train: Frame, test: Frame)
    requires UniqueNames(train.columns) && UniqueNames(test.columns)
    requires Classify(train, test).Success?
    ensures var r := Classify(train, test).value;
      && IsSubsequence(r.categorical, Names(train.columns))
      && (forall x :: x in r.categorical <==> exists c :: c in train.columns && c.name == x && c.tag == Object)
  {
  }

  /** `safe_cols` keeps, in categorical order, exactly the categorical columns
      whose testing values are covered by their training values. */
  lemma ClassifySafe(train: Frame, test: Frame)
    requires UniqueNames(train.columns) && UniqueNames(test.columns)
    requires Classify(train, test).Success?
    ensures var r := Classify(train, test).value;
      && IsSubsequence(r.safe, r.categorical)
      && (forall x :: x in r.safe <==> x in r.categorical && IsSafe(x, train.columns, test.columns))
  {
  }

  /** `safe_cols` also keeps the order of the training columns. */
  lemma SafeInTrainingOrder(train: Frame, test: Frame)
    requires UniqueNames(train.columns) && UniqueNames(test.columns)
    requires Classify(train, test).Success?
    ensures IsSubsequence(Classify(train, test).value.safe, Names(train.columns))
  {
    var r := Classify(train, test).value;
    ClassifyCategorical(train, test);
    ClassifySafe(train, test);
    SubsequenceTransitive(r.safe, r.categorical, Names(train.columns));
  }

  /** `unsafe_cols` holds each categorical column that is not safe, once, in some order. */
  lemma ClassifyUnsafe(train: Frame, test: Frame)
    requires UniqueNames(train.columns) && UniqueNames(test.columns)
    requires Classify(train, test).Success?
    ensures var r := Classify(train, test).value;
      && NoDuplicates(r.unsafe)
      && (forall x :: x in r.unsafe <==> x in r.categorical && !IsSafe(x, train.columns, test.columns))
  {
  }

  /** A categorical column is safe exactly when every value of its testing
      column appears in its training column, and unsafe exactly when some
      testing value was never seen in training. */
  lemma SafeMeansEveryTestValueSeen(train: Frame, test: Frame, tr: Column, te: Column)
    requires UniqueNames(train.columns) && UniqueNames(test.columns)
    requires Classify(train, test).Success?
    requires tr in train.columns && tr.tag == Object && te in test.columns && te.name == tr.name
    ensures tr.name in Classify(train, test).value.categorical
    ensures tr.name in Classify(train, test).value.safe <==> forall v :: v in te.values ==> v in tr.values
    ensures tr.name in Classify(train, test).value.unsafe <==> exists v :: v in te.values && v !in tr.values
  {
    IsSafeMeansEveryTestValueSeen(train.columns, test.columns, tr, te);
    ClassifyCategorical(train, test);
    ClassifySafe(train, test);
    ClassifyUnsafe(train, test);
  }

  /** With unique labels, `IsSafe` asks whether every testing value of the
      column occurs among its training values. */
  lemma IsSafeMeansEveryTestValueSeen(train: seq<Column>, test: seq<Column>, tr: Column, te: Column)
    requires UniqueNames(train) && UniqueNames(test)
    requires tr in train && te in test && te.name == tr.name
    ensures IsSafe(tr.name, train, test) <==> forall v :: v in te.values ==> v in tr.values
  {
    LookupUnique(train, tr);
    LookupUnique(test, te);
    CoveredMeansEveryValueSeen(te.values, tr.values);
  }

  /** Safe and unsafe columns split the categorical ones: no label is in both,
      together they hold every categorical label, and their lengths add up. */
  lemma ClassifyPartitions(train: Frame, test: Frame)
    requires UniqueNames(train.columns) && UniqueNames(test.columns)
    requires Classify(train, test).Success?
    ensures var r := Classify(train, test).value;
      && Elements(r.safe) !! Elements(r.unsafe)
      && Elements(r.safe) + Elements(r.unsafe) == Elements(r.categorical)
      && |r.safe| + |r.unsafe| == |r.categorical|
  {
    var r := Classify(train, test).value;
    ClassifyCategorical(train, test);
    ClassifySafe(train, test);
    ClassifyUnsafe(train, test);
    SubsequenceNoDuplicates(r.categorical, Names(train.columns));
    SplitCounts(r.categorical, r.safe, r.unsafe);
  }

  /** Splitting a duplicate-free list into a subsequence and a duplicate-free
      list of the remaining elements preserves the total count. */
  lemma SplitCounts(all: seq<Label>, kept: seq<Label>, rest: seq<Label>)
    requires NoDuplicates(all) && IsSubsequence(kept, all) && NoDuplicates(rest)
    requires forall x :: x in rest <==> x in all && x !in kept
    ensures Elements(kept) !! Elements(rest)
    ensures Elements(kept) + Elements(rest) == Elements(all)
    ensures |kept| + |rest| == |all|
  {
    SubsequenceNoDuplicates(kept, all);
    SubsequenceMembers(kept, all);
    NoDuplicatesCardinality(all);
    NoDuplicatesCardinality(kept);
    NoDuplicatesCardinality(rest);
    assert Elements(rest) == Elements(all) - Elements(kept);
    assert Elements(kept) <= Elements(all);
  }

  /** Without `"object"` columns all three lists are empty, whatever the testing frame holds. */
  lemma NoObjectColumnsClassifyEmpty(train: Frame, test: Frame)
    requires UniqueNames(train.columns) && UniqueNames(test.columns)
    requires forall c :: c in train.columns ==> c.tag != Object
    ensures Classify(train, test) == Success(Lists([], [], []))
  {
    var cats := CategoricalColumns(train.columns);
    assert Elements(cats) - Elements(cats) == {};
  }

  /** The categorical list is determined, order included: any subsequence of the
      training labels holding exactly the `"object"` columns' labels is that list. */
  lemma CategoricalDetermined(train: Frame, test: Frame, xs: seq<Label>)
    requires UniqueNames(train.columns) && UniqueNames(test.columns)
    requires Classify(train, test).Success?
    requires IsSubsequence(xs, Names(train.columns))
    requires forall x :: x in xs <==> exists c :: c in train.columns && c.name == x && c.tag == Object
    ensures xs == Classify(train, test).value.categorical
  {
    SubsequenceDeterminedByMembers(xs, Classify(train, test).value.categorical, Names(train.columns));
  }

  /** The safe list is determined, order included: any subsequence of the
      categorical list holding exactly its safe labels is that list. */
  lemma SafeDetermined(train: Frame, test: Frame, ys: seq<Label>)
    requires UniqueNames(train.columns) && UniqueNames(test.columns)
    requires Classify(train, test).Success?
    requires IsSubsequence(ys, Classify(train, test).value.categorical)
    requires forall x :: x in ys <==>
      x in Classify(train, test).value.categorical && IsSafe(x, train.columns, test.columns)
    ensures ys == Classify(train, test).value.safe
  {
    var r := Classify(train, test).value;
    SubsequenceNoDuplicates(r.categorical, Names(train.columns));
    SubsequenceDeterminedByMembers(ys, r.safe, r.categorical);
  }

  /** Training `color = [red, blue]`, testing `color = [red]`: the column is safe. */
  lemma SafeColorExample()
    ensures
      var train := Frame([Pos(0), Pos(1)], [Column(Str("color"), Object, [Text("red"), Text("blue")])]);
      var test := Frame([Pos(0)], [Column(Str("color"), Object, [Text("red")])]);
      Classify(train, test) == Success(Lists([Str("color")], [Str("color")], []))
  {
    var train := Frame([Pos(0), Pos(1)], [Column(Str("color"), Object, [Text("red"), Text("blue")])]);
    var test := Frame([Pos(0)], [Column(Str("color"), Object, [Text("red")])]);
    var color := Str("color");
    assert train.columns[1..] == [];
    assert CategoricalColumns(train.columns) == [color];
    CoveredMeansEveryValueSeen(test.columns[0].values, train.columns[0].values);
    assert IsSafe(color, train.columns, test.columns);
    assert SafeColumns([color], train.columns, test.columns) == Success([color]);
    assert Elements([color]) - Elements([color]) == {};
  }

  /** Training `color = [red]`, testing `color = [red, green]`: the column is unsafe. */
  lemma UnsafeColorExample()
    ensures
      var train := Frame([Pos(0)], [Column(Str("color"), Object, [Text("red")])]);
      var test := Frame([Pos(0), Pos(1)], [Column(Str("color"), Object, [Text("red"), Text("green")])]);
      Classify(train, test) == Success(Lists([Str("color")], [], [Str("color")]))
  {
    var train := Frame([Pos(0)], [Column(Str("color"), Object, [Text("red")])]);
    var test := Frame([Pos(0), Pos(1)], [Column(Str("color"), Object, [Text("red"), Text("green")])]);
    var color := Str("color");
    assert train.columns[1..] == [];
    assert CategoricalColumns(train.columns) == [color];
    CoveredMeansEveryValueSeen(test.columns[0].values, train.columns[0].values);
    assert Text("green") in test.columns[0].values;
    assert !IsSafe(color, train.columns, test.columns);
    assert SafeColumns([color], train.columns, test.columns) == Success([]);
    assert Elements([color]) - Elements([]) == {color};
    var unsafe := SetToList({color});
    assert unsafe[0] in unsafe;
    assert unsafe == [color];
  }
}
