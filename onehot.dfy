/** `use_OH_encoding` (Helpers/transformations.py): replace the chosen columns
    of a frame by the block a one-hot encoder produces for them. The encoder
    is scikit-learn's and stays opaque; what is modelled is the layout of the
    frame built around its output. */
module OneHotEncoding {
  import opened Sequences
  import opened Frames

  /** One column of the array the encoder returns. */
  datatype EncodedColumn = EncodedColumn(tag: Tag, values: seq<Value>)

  /** The array the encoder returns: its number of rows and its columns. */
  datatype Block = Block(rows: nat, columns: seq<EncodedColumn>)

  /** Every column of the block has one value per row. */
  predicate BlockShaped(b: Block)
  {
    forall c :: c in b.columns ==> |c.values| == b.rows
  }

  /** An encoder, seen only through what `fit_transform` (training) and
      `transform` (inference) return for the columns handed to them. */
  datatype Encoder = Encoder(fitTransform: seq<Column> -> Block, transform: seq<Column> -> Block)

  // ----- Decimal rendering of column positions (`str` of a non-negative int) -----

  predicate IsDigit(c: char)
  {
    '0' <= c <= '9'
  }

  function DigitChar(d: nat): (c: char)
    requires d < 10
    ensures IsDigit(c)
  {
    ('0' as int + d) as char
  }

  function DigitValue(c: char): (d: nat)
    requires IsDigit(c)
    ensures d < 10
  {
    c as int - '0' as int
  }

  /** `str(n)`: the decimal digits of `n`, most significant first, without leading zeros. */
  function Decimal(n: nat): (s: string)
    ensures |s| >= 1 && forall i :: 0 <= i < |s| ==> IsDigit(s[i])
    ensures s[0] == '0' ==> s == "0"
    decreases n
  {
    if n < 10 then [DigitChar(n)] else Decimal(n / 10) + [DigitChar(n % 10)]
  }

  /** Reads a string of decimal digits back as a number (`int(s)`). */
  function ParseDecimal(s: string): nat
    requires forall i :: 0 <= i < |s| ==> IsDigit(s[i])
  {
    if s == [] then 0 else ParseDecimal(s[..|s| - 1]) * 10 + DigitValue(s[|s| - 1])
  }

  /** Reading back the decimal rendering of `n` gives `n`. */
  lemma {:induction false} ParseDecimalOfDecimal(n: nat)
    ensures ParseDecimal(Decimal(n)) == n
    decreases n
  {
    var s := Decimal(n);
    if n >= 10 {
      ParseDecimalOfDecimal(n / 10);
      assert s[..|s| - 1] == Decimal(n / 10);
    }
  }

  /** Distinct positions are rendered as distinct strings. */
  lemma DecimalInjective(m: nat, n: nat)
    requires m != n
    ensures Decimal(m) != Decimal(n)
  {
    ParseDecimalOfDecimal(m);
    ParseDecimalOfDecimal(n);
  }

  // ----- The frame operations -----

  /** `str(label)`: string labels are kept, integer positions become their decimal digits. */
  function StrLabel(x: Label): (r: Label)
    ensures r.Str?
    ensures x.Str? ==> r == x
  {
    match x
    case Str(_) => x
    case Pos(n) => Str(Decimal(n))
  }

  /** A column with its label turned into a string. */
  function Relabelled(c: Column): Column
  {
    c.(name := StrLabel(c.name))
  }

  /** `columns.astype(str)` on a whole frame's columns. */
  function Stringify(cols: seq<Column>): (r: seq<Column>)
    ensures |r| == |cols| && forall i :: 0 <= i < |cols| ==> r[i] == Relabelled(cols[i])
  {
    seq(|cols|, i requires 0 <= i < |cols| => Relabelled(cols[i]))
  }

  /** The requested labels that the frame lacks, in request order. */
  function MissingLabels(names: seq<Label>, cols: seq<Column>): (r: seq<Label>)
    ensures IsSubsequence(r, names)
    ensures forall x :: x in r <==> x in names && x !in Names(cols)
  {
    if names == [] then []
    else if names[0] in Names(cols) then MissingLabels(names[1..], cols)
    else [names[0]] + MissingLabels(names[1..], cols)
  }

  /** `df[names]`: for each requested label, in request order, the columns carrying it. */
  function Select(cols: seq<Column>, names: seq<Label>): (r: seq<Column>)
    ensures forall c :: c in r <==> c in cols && c.name in names
  {
    if names == [] then [] else Labelled(cols, names[0]) + Select(cols, names[1..])
  }

  /** With unique labels that are all present, `df[names]` has one column per
      requested label, in request order. */
  lemma {:induction false} SelectInRequestOrder(cols: seq<Column>, names: seq<Label>)
    requires UniqueNames(cols) && forall x :: x in names ==> x in Names(cols)
    ensures |Select(cols, names)| == |names|
    ensures forall i :: 0 <= i < |names| ==> Select(cols, names)[i].name == names[i]
  {
    if names != [] {
      var first := Labelled(cols, names[0]);
      var rest := Select(cols, names[1..]);
      assert names[0] in names;
      assert first[0] in first;
      SelectInRequestOrder(cols, names[1..]);
      forall i | 0 <= i < |names|
        ensures Select(cols, names)[i].name == names[i]
      {
        if i > 0 {
          assert Select(cols, names)[i] == rest[i - 1];
        }
      }
    }
  }

  /** The columns labelled `x`, in frame order, every copy of a repeated column
      kept; with unique labels, exactly one when `x` is a label of the frame. */
  function Labelled(cols: seq<Column>, x: Label): (r: seq<Column>)
    ensures IsSubsequence(r, cols)
    ensures forall c :: c in r <==> c in cols && c.name == x
    ensures x !in Names(cols) ==> r == []
    ensures UniqueNames(cols) && x in Names(cols) ==> |r| == 1
  {
    if cols == [] then []
    else
      var rest := Labelled(cols[1..], x);
      assert Names(cols) == [cols[0].name] + Names(cols[1..]);
      if cols[0].name == x then
        assert UniqueNames(cols) ==> x !in Names(cols[1..]);
        assert ([cols[0]] + rest)[1..] == rest;
        [cols[0]] + rest
      else rest
  }

  /** `df[[x]]` keeps every copy of a column labelled `x`, and no other column. */
  lemma {:induction false} LabelledCopies(cols: seq<Column>, x: Label)
    ensures forall c :: multiset(Labelled(cols, x))[c] == if c.name == x then multiset(cols)[c] else 0
  {
    if cols != [] {
      LabelledCopies(cols[1..], x);
      assert cols == [cols[0]] + cols[1..];
      assert multiset(cols) == multiset{cols[0]} + multiset(cols[1..]);
    }
  }

  /** `df.drop(names, axis=1)`: the columns whose label is not in `names`, in order,
      every copy of a repeated column kept. */
  function DropColumns(cols: seq<Column>, names: seq<Label>): (r: seq<Column>)
    ensures IsSubsequence(r, cols)
    ensures forall c :: c in r <==> c in cols && c.name !in names
    ensures forall c :: multiset(r)[c] == if c.name in names then 0 else multiset(cols)[c]
  {
    if cols == [] then []
    else
      var rest := DropColumns(cols[1..], names);
      assert cols == [cols[0]] + cols[1..];
      if cols[0].name in names then rest
      else
        assert ([cols[0]] + rest)[1..] == rest;
        [cols[0]] + rest
  }

  /** `pd.DataFrame(array)`: the encoder's columns, labelled by position. */
  function Positional(block: seq<EncodedColumn>): (r: seq<Column>)
    ensures |r| == |block|
    ensures forall i :: 0 <= i < |r| ==> r[i] == Column(Pos(i), block[i].tag, block[i].values)
  {
    seq(|block|, i requires 0 <= i < |block| => Column(Pos(i), block[i].tag, block[i].values))
  }

  /** What the encoder returns for the selected columns (lines 57-60). */
  function Encoded(encoder: Encoder, df: Frame, columns: seq<Label>, training: bool): Block
  {
    var selected := Select(df.columns, columns);
    if training then encoder.fitTransform(selected) else encoder.transform(selected)
  }

  /** The encoder is handed only the requested columns: frames that agree on
      them get the same block back. */
  lemma EncoderSeesOnlySelection(encoder: Encoder, df: Frame, other: Frame, columns: seq<Label>, training: bool)
    requires Select(df.columns, columns) == Select(other.columns, columns)
    ensures Encoded(encoder, df, columns, training) == Encoded(encoder, other, columns, training)
  {
  }

  /** `use_OH_encoding(OH_encoder, df, columns, training)`. */
  function OneHotEncode(encoder: Encoder, df: Frame, columns: seq<Label>, training: bool): (r: Result<Frame>)
    ensures r.Success? <==>
      (forall x :: x in columns ==> x in Names(df.columns)) && Encoded(encoder, df, columns, training).rows == |df.index|
    ensures r.Success? ==>
      && r.value.index == df.index
      && |r.value.columns| == |DropColumns(df.columns, columns)| + |Encoded(encoder, df, columns, training).columns|
  {
    var missing := MissingLabels(columns, df.columns);
    if missing != [] then
      assert missing[0] in missing;
      Failure(MissingColumns(missing))
    else
      var block := Encoded(encoder, df, columns, training);
      if block.rows != |df.index| then Failure(LengthMismatch(block.rows, |df.index|))
      else Success(Frame(df.index, Stringify(DropColumns(df.columns, columns) + Positional(block.columns))))
  }

  // ----- What the caller gets -----

  /** Relabelling keeps a subsequence a subsequence. */
  lemma {:induction false} StringifySubsequence(xs: seq<Column>, ys: seq<Column>)
    requires IsSubsequence(xs, ys)
    ensures IsSubsequence(Stringify(xs), Stringify(ys))
    decreases |ys|
  {
    if xs != [] {
      assert Stringify(xs)[1..] == Stringify(xs[1..]);
      assert Stringify(ys)[1..] == Stringify(ys[1..]);
      if xs[0] == ys[0] && IsSubsequence(xs[1..], ys[1..]) {
        StringifySubsequence(xs[1..], ys[1..]);
      } else {
        StringifySubsequence(xs, ys[1..]);
      }
    }
  }

  /** A KeyError is raised exactly when some requested label is not a column of
      `df`; it lists those labels, in request order. With every label present,
      the call fails only when the encoder's row count is not the frame's. */
  lemma OneHotEncodeErrors(encoder: Encoder, df: Frame, columns: seq<Label>, training: bool)
    ensures var r := OneHotEncode(encoder, df, columns, training);
      (r.Failure? && r.error.MissingColumns?) <==> exists x :: x in columns && x !in Names(df.columns)
    ensures var r := OneHotEncode(encoder, df, columns, training);
      r.Failure? && r.error.MissingColumns? ==>
        && IsSubsequence(r.error.names, columns)
        && forall x :: x in r.error.names <==> x in columns && x !in Names(df.columns)
    ensures (forall x :: x in columns ==> x in Names(df.columns)) ==>
      (OneHotEncode(encoder, df, columns, training).Success? <==>
        Encoded(encoder, df, columns, training).rows == |df.index|)
  {
    var missing := MissingLabels(columns, df.columns);
    if missing != [] {
      assert missing[0] in missing;
    }
  }

  /** The result keeps the row index of `df` (line 62) and every column label is a string (line 68). */
  lemma OneHotEncodeIndexAndLabels(encoder: Encoder, df: Frame, columns: seq<Label>, training: bool)
    requires OneHotEncode(encoder, df, columns, training).Success?
    ensures var out := OneHotEncode(encoder, df, columns, training).value;
      && out.index == df.index
      && forall c :: c in out.columns ==> c.name.Str?
  {
  }

  /** The result starts with the columns of `df` that were not targeted, in
      their original order, each with its label turned into a string, and
      nothing else before the encoded block. */
  lemma OneHotEncodeKeptColumns(encoder: Encoder, df: Frame, columns: seq<Label>, training: bool)
    requires OneHotEncode(encoder, df, columns, training).Success?
    ensures var out := OneHotEncode(encoder, df, columns, training).value;
      var k := |out.columns| - |Encoded(encoder, df, columns, training).columns|;
      && 0 <= k
      && IsSubsequence(out.columns[..k], Stringify(df.columns))
      && (forall c :: c in df.columns && c.name !in columns ==> Relabelled(c) in out.columns[..k])
      && (forall c :: c in out.columns[..k] ==> exists d :: d in df.columns && d.name !in columns && c == Relabelled(d))
      && out.columns[..k] == Stringify(DropColumns(df.columns, columns))
  {
    var block := Encoded(encoder, df, columns, training);
    var kept := DropColumns(df.columns, columns);
    OneHotEncodeValue(encoder, df, columns, training);
    StringifiedPrefix(kept, Positional(block.columns));
    StringifySubsequence(kept, df.columns);
    StringifyMembers(kept);
  }

  /** Relabelling a concatenation leaves the relabelled first part in front. */
  lemma StringifiedPrefix(kept: seq<Column>, tail: seq<Column>)
    ensures var out := Stringify(kept + tail);
      |out| == |kept| + |tail| && out[..|kept|] == Stringify(kept)
  {
  }

  /** The columns of a relabelled sequence are the relabelled columns of the original. */
  lemma StringifyMembers(xs: seq<Column>)
    ensures forall c :: c in Stringify(xs) <==> exists d :: d in xs && c == Relabelled(d)
  {
    forall c | c in Stringify(xs)
      ensures exists d :: d in xs && c == Relabelled(d)
    {
      var i :| 0 <= i < |xs| && Stringify(xs)[i] == c;
      assert xs[i] in xs;
    }
    forall d | d in xs
      ensures Relabelled(d) in Stringify(xs)
    {
      var i :| 0 <= i < |xs| && xs[i] == d;
      assert Stringify(xs)[i] == Relabelled(d);
    }
  }

  /** `cols` ends with the columns of `block`, in order, labelled "0", "1", ... by position. */
  predicate EndsWithEncoded(cols: seq<Column>, block: seq<EncodedColumn>)
  {
    |block| <= |cols| &&
    forall j :: 0 <= j < |block| ==>
      cols[|cols| - |block| + j] == Column(Str(Decimal(j)), block[j].tag, block[j].values)
  }

  /** No two of the last `n` columns of `cols` share a label. */
  predicate DistinctTrailingLabels(cols: seq<Column>, n: nat)
  {
    forall i, j :: 0 <= |cols| - n <= i < j < |cols| ==> cols[i].name != cols[j].name
  }

  /** After the kept columns come the encoder's columns, in the encoder's
      order, labelled "0", "1", ... by position; these labels are pairwise distinct. */
  lemma OneHotEncodeEncodedColumns(encoder: Encoder, df: Frame, columns: seq<Label>, training: bool)
    requires OneHotEncode(encoder, df, columns, training).Success?
    ensures var out := OneHotEncode(encoder, df, columns, training).value;
      var block := Encoded(encoder, df, columns, training).columns;
      EndsWithEncoded(out.columns, block) && DistinctTrailingLabels(out.columns, |block|)
  {
    OneHotEncodeValue(encoder, df, columns, training);
    var block := Encoded(encoder, df, columns, training).columns;
    AppendedBlockLayout(DropColumns(df.columns, columns), block);
    EncodedLabelsDistinct(OneHotEncode(encoder, df, columns, training).value.columns, block);
  }

  /** The frame a successful call returns, spelled out. */
  lemma OneHotEncodeValue(encoder: Encoder, df: Frame, columns: seq<Label>, training: bool)
    requires OneHotEncode(encoder, df, columns, training).Success?
    ensures OneHotEncode(encoder, df, columns, training).value ==
      Frame(df.index, Stringify(DropColumns(df.columns, columns) + Positional(Encoded(encoder, df, columns, training).columns)))
  {
  }

  /** The encoder's columns appended after `kept` and relabelled sit at the end,
      labelled by the decimal rendering of their position. */
  lemma AppendedBlockLayout(kept: seq<Column>, block: seq<EncodedColumn>)
    ensures EndsWithEncoded(Stringify(kept + Positional(block)), block)
  {
    var out := Stringify(kept + Positional(block));
    var k := |kept|;
    assert |out| == k + |block|;
    forall j | 0 <= j < |block|
      ensures out[|out| - |block| + j] == Column(Str(Decimal(j)), block[j].tag, block[j].values)
    {
      assert (kept + Positional(block))[k + j] == Positional(block)[j];
    }
  }

  /** Columns labelled by the decimal rendering of their position carry distinct labels. */
  lemma EncodedLabelsDistinct(cols: seq<Column>, block: seq<EncodedColumn>)
    requires EndsWithEncoded(cols, block)
    ensures DistinctTrailingLabels(cols, |block|)
  {
    var k := |cols| - |block|;
    forall i, j | k <= i < j < |cols|
      ensures cols[i].name != cols[j].name
    {
      assert cols[|cols| - |block| + (i - k)] == Column(Str(Decimal(i - k)), block[i - k].tag, block[i - k].values);
      assert cols[|cols| - |block| + (j - k)] == Column(Str(Decimal(j - k)), block[j - k].tag, block[j - k].values);
      DecimalInjective(i - k, j - k);
    }
  }

  /** If `df` and the encoder's block have one value per row in every column,
      so has the result. */
  lemma OneHotEncodeShaped(encoder: Encoder, df: Frame, columns: seq<Label>, training: bool)
    requires Shaped(df) && BlockShaped(Encoded(encoder, df, columns, training))
    requires OneHotEncode(encoder, df, columns, training).Success?
    ensures Shaped(OneHotEncode(encoder, df, columns, training).value)
  {
    var out := OneHotEncode(encoder, df, columns, training).value;
    var block := Encoded(encoder, df, columns, training);
    var kept := DropColumns(df.columns, columns);
    var all := kept + Positional(block.columns);
    assert out.columns == Stringify(all);
    forall c | c in out.columns
      ensures |c.values| == |out.index|
    {
      var i :| 0 <= i < |all| && out.columns[i] == c;
      if i < |kept| {
        assert kept[i] in kept;
      } else {
        assert block.columns[i - |kept|] in block.columns;
      }
    }
  }

  /** A frame `{a: [1, 2], color: [red, blue]}` encoded on `[color]` in training
      mode, with an encoder that yields two indicator columns: `a` is kept, the
      two encoded columns follow as "0" and "1", and `color` is gone. */
  lemma ColorEncodingExample()
    ensures
      var a := Column(Str("a"), Other, [Number(1), Number(2)]);
      var color := Column(Str("color"), Object, [Text("red"), Text("blue")]);
      var df := Frame([Pos(0), Pos(1)], [a, color]);
      var red := EncodedColumn(Other, [Number(1), Number(0)]);
      var blue := EncodedColumn(Other, [Number(0), Number(1)]);
      var encoder := Encoder(cols => Block(2, [blue, red]), cols => Block(0, []));
      OneHotEncode(encoder, df, [Str("color")], true) ==
        Success(Frame([Pos(0), Pos(1)], [a, Column(Str("0"), Other, blue.values), Column(Str("1"), Other, red.values)]))
  {
    var a := Column(Str("a"), Other, [Number(1), Number(2)]);
    var color := Column(Str("color"), Object, [Text("red"), Text("blue")]);
    var cols := [a, color];
    var df := Frame([Pos(0), Pos(1)], cols);
    var red := EncodedColumn(Other, [Number(1), Number(0)]);
    var blue := EncodedColumn(Other, [Number(0), Number(1)]);
    var encoder := Encoder(cols => Block(2, [blue, red]), cols => Block(0, []));
    assert Names(cols) == [Str("a"), Str("color")];
    assert MissingLabels([Str("color")], cols) == [];
    assert Encoded(encoder, df, [Str("color")], true) == Block(2, [blue, red]);
    OneHotEncodeValue(encoder, df, [Str("color")], true);
    KeptExample(a, color);
    LayoutExample(a, blue, red);
  }

  /** Dropping `color` from `[a, color]` leaves `[a]`. */
  lemma KeptExample(a: Column, color: Column)
    requires a.name == Str("a") && color.name == Str("color")
    ensures DropColumns([a, color], [Str("color")]) == [a]
  {
    assert [a, color][1..] == [color];
    assert [color][1..] == [];
  }

  /** A string-labelled column followed by a two-column block, relabelled. */
  lemma LayoutExample(a: Column, x: EncodedColumn, y: EncodedColumn)
    requires a.name.Str?
    ensures Stringify([a] + Positional([x, y])) ==
      [a, Column(Str("0"), x.tag, x.values), Column(Str("1"), y.tag, y.values)]
  {
    assert Decimal(0) == "0" && Decimal(1) == "1";
    var p := Positional([x, y]);
    assert [a] + p == [a, p[0], p[1]];
  }
}
