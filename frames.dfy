/** The pandas data model the helpers in Helpers/transformations.py work on:
    a data frame is a row index and a sequence of labelled, typed columns. */
module Frames {
  import opened Sequences

  /** The storage type ("dtype") of a column, as far as the helpers look at it:
      `"object"` (text and mixed values) or anything else. */
  datatype Tag = Object | Other

  /** A cell value. */
  datatype Value = Text(text: string) | Number(number: int) | Missing

  /** A column or row label: a string, or an integer position as pandas
      assigns when a frame is built from a bare array. */
  datatype Label = Str(s: string) | Pos(n: nat)

  datatype Column = Column(name: Label, tag: Tag, values: seq<Value>)

  datatype Frame = Frame(index: seq<Label>, columns: seq<Column>)

  /** The exceptions the helpers let escape. */
  datatype Error =
    | MissingColumn(name: Label)             // KeyError from `frame[col]`
    | MissingColumns(names: seq<Label>)      // KeyError from `frame[list_of_cols]`
    | LengthMismatch(expected: nat, actual: nat)  // ValueError from assigning an index

  datatype Option<T> = None | Some(value: T)

  datatype Result<T> = Success(value: T) | Failure(error: Error)

  /** The column labels of `cols`, in order. */
  function Names(cols: seq<Column>): (r: seq<Label>)
    ensures |r| == |cols|
    ensures forall x :: x in r <==> exists c :: c in cols && c.name == x
  {
    if cols == [] then [] else [cols[0].name] + Names(cols[1..])
  }

  /** No two columns share a label, so that `frame[label]` is a single column. */
  predicate UniqueNames(cols: seq<Column>)
  {
    NoDuplicates(Names(cols))
  }

  /** Every column has one value per row. */
  predicate Shaped(f: Frame)
  {
    forall c :: c in f.columns ==> |c.values| == |f.index|
  }

  /** `frame[x]`: the first column labelled `x`, if there is one. */
  function Lookup(cols: seq<Column>, x: Label): (r: Option<Column>)
    ensures r.Some? <==> x in Names(cols)
    ensures r.Some? ==> r.value in cols && r.value.name == x
  {
    if cols == [] then None
    else if cols[0].name == x then Some(cols[0])
    else Lookup(cols[1..], x)
  }

  /** With unique labels, the column `Lookup` finds is the only one with that label. */
  lemma {:induction false} LookupUnique(cols: seq<Column>, c: Column)
    requires UniqueNames(cols) && c in cols
    ensures Lookup(cols, c.name) == Some(c)
  {
    if cols[0] != c {
      assert c in cols[1..];
      assert c.name in Names(cols[1..]);
      LookupUnique(cols[1..], c);
    }
  }
}
