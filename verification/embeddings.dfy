/** `WCLSTM.load_embeddings`: after `load_dict` has grown the tables, one matrix
    row per id is drawn at random, then every embedding line whose replaced token
    the table knows overwrites the row of that token's id. */
module Embeddings {
  import opened Wrappers
  import opened SymbolTable
  import opened Vocabulary

  /** One matrix row: the value fields of an embedding line, kept as the text
      they were read from. */
  type Row = seq<string>

  /** `line[-dim:]`: the last `dim` fields. Python reads `-0` as `0`, so with
      `dim == 0` the slice is the whole line. */
  function ValueFields(line: seq<string>, dim: nat): (r: Row)
    requires |line| == dim + 1
    ensures dim > 0 ==> |r| == dim && r == line[1..]
  {
    if dim == 0 then line else line[|line| - dim..]
  }

  /** The row a line writes: the id of its replaced token, when `lookup` does not
      answer `unknown_symbol`, as `lookup_strict` gives it. */
  function Target(t: Table, line: seq<string>, table: seq<(string, string)>): (r: Option<nat>)
    requires Valid(t)
    ensures r.Some? ==> |line| >= 1 && LineToken(line, table) in t.d && r.value == t.d[LineToken(line, table)]
    ensures |line| >= 1 && LineToken(line, table) in t.d ==> r.Some?
    ensures r.Some? ==> r.value < t.s
  {
    if |line| == 0 then None
    else
      var w := LineToken(line, table);
      if Lookup(t, w) != UnknownSymbol then LookupStrict(t, w) else None
  }

  /** Line `j` is the last line that writes row `i`. */
  ghost predicate LastWriter(t: Table, lines: seq<seq<string>>, table: seq<(string, string)>, i: nat, j: nat)
    requires Valid(t)
  {
    && j < |lines|
    && Target(t, lines[j], table) == Some(i)
    && forall j' :: j < j' < |lines| ==> Target(t, lines[j'], table) != Some(i)
  }

  /** The row rule: `r` has the rows of `m`, a row no line writes keeps its
      initial value, and a written row holds the values of the last line that
      writes it. */
  ghost predicate RowsFollow(t: Table, m: seq<Row>, r: seq<Row>, lines: seq<seq<string>>, dim: nat,
                             table: seq<(string, string)>)
    requires Valid(t)
  {
    && |r| == |m|
    && (forall i :: 0 <= i < |m| && (forall j :: 0 <= j < |lines| ==> Target(t, lines[j], table) != Some(i))
          ==> r[i] == m[i])
    && (forall i: nat, j: nat :: i < |m| && LastWriter(t, lines, table, i, j) && |lines[j]| == dim + 1
          ==> r[i] == ValueFields(lines[j], dim))
  }

  /** The randomly drawn matrix: row `i` is `init(i)`. */
  function InitMatrix(n: nat, init: nat -> Row): (r: seq<Row>)
    ensures |r| == n && forall i :: 0 <= i < n ==> r[i] == init(i)
  {
    seq(n, (i: int) requires 0 <= i => init(i))
  }

  /** The write loop of `load_embeddings` over one file's data lines, in file
      order: a line of the wrong width fails, a line with a known token
      overwrites its row. */
  function Overwrite(t: Table, m: seq<Row>, lines: seq<seq<string>>, dim: nat,
                     table: seq<(string, string)>, message: string): (r: Result<seq<Row>>)
    requires Valid(t) && |m| == t.s
    ensures r.Ok? <==> AllWidth(lines, dim)
    ensures r.Err? ==> r.fault == AssertionError(message)
    ensures r.Ok? ==> RowsFollow(t, m, r.value, lines, dim, table)
    decreases |lines|
  {
    if |lines| == 0 then Ok(m)
    else
      var front := lines[..|lines| - 1];
      var last := lines[|lines| - 1];
      match Overwrite(t, m, front, dim, table, message)
      case Err(e) => Err(e)
      case Ok(prev) =>
        if |last| != dim + 1 then Err(AssertionError(message))
        else
          var r := match Target(t, last, table)
                   case None => prev
                   case Some(i) => prev[i := ValueFields(last, dim)];
          OverwriteStep(t, m, lines, dim, table, prev, r);
          Ok(r)
  }

  /** Writing the last line on top of the front's result keeps both promises. */
  lemma OverwriteStep(t: Table, m: seq<Row>, lines: seq<seq<string>>, dim: nat,
                      table: seq<(string, string)>, prev: seq<Row>, r: seq<Row>)
    requires Valid(t) && |m| == t.s && |lines| > 0 && |lines[|lines| - 1]| == dim + 1
    requires RowsFollow(t, m, prev, lines[..|lines| - 1], dim, table)
    requires var last := lines[|lines| - 1];
      r == match Target(t, last, table)
           case None => prev
           case Some(i) => prev[i := ValueFields(last, dim)]
    ensures RowsFollow(t, m, r, lines, dim, table)
  {
    var n := |lines| - 1;
    var front := lines[..n];
    assert forall j :: 0 <= j < n ==> front[j] == lines[j];
    forall i | 0 <= i < |m| && (forall j :: 0 <= j < |lines| ==> Target(t, lines[j], table) != Some(i))
      ensures r[i] == m[i]
    {
      assert Target(t, lines[n], table) != Some(i);
      assert forall j :: 0 <= j < |front| ==> Target(t, front[j], table) != Some(i);
    }
    forall i: nat, j: nat | i < |m| && LastWriter(t, lines, table, i, j) && |lines[j]| == dim + 1
      ensures r[i] == ValueFields(lines[j], dim)
    {
      if j < n {
        assert Target(t, lines[n], table) != Some(i);
        assert LastWriter(t, front, table, i, j);
      }
    }
  }

  /** What `load_embeddings` leaves: the grown vocabulary and both matrices. */
  datatype Embedded = Embedded(vocab: Vocab, covered: nat, wordEmb: seq<Row>, charEmb: seq<Row>)

  /** `load_embeddings()`: `load_dict`, then matrices of `word_dict.s` and
      `char_dict.s` rows drawn from `wordInit` / `charInit` (the uniform random
      draw, taken as a parameter), then the row overwrites of both files. */
  function LoadEmbeddings(v: Vocab, f: EmbeddingFiles, wordInit: nat -> Row, charInit: nat -> Row): (r: Result<Embedded>)
    requires ValidVocab(v)
    ensures r.Ok? <==> LoadDict(v, f).Ok?
    ensures r.Ok? ==> r.value.vocab == LoadDict(v, f).value.vocab && r.value.covered == LoadDict(v, f).value.covered
    ensures r.Ok? ==> r.value.vocab.wordDict.Some? && r.value.vocab.charDict.Some?
    ensures r.Ok? ==> |r.value.wordEmb| == r.value.vocab.wordDict.value.s
    ensures r.Ok? ==> |r.value.charEmb| == r.value.vocab.charDict.value.s
    ensures r.Ok? ==> var t := r.value.vocab.wordDict.value;
      RowsFollow(t, InitMatrix(t.s, wordInit), r.value.wordEmb,
                 DataLines(f.wordLines, IsFastText(f.wordPath)), f.wordDim, f.replace)
    ensures r.Ok? ==> var t := r.value.vocab.charDict.value;
      RowsFollow(t, InitMatrix(t.s, charInit), r.value.charEmb, f.charLines, f.charDim, f.replace)
  {
    match LoadDict(v, f)
    case Err(e) => Err(e)
    case Ok(loaded) =>
      var wt := loaded.vocab.wordDict.value;
      var ct := loaded.vocab.charDict.value;
      var wm0 := InitMatrix(wt.s, wordInit);
      var cm0 := InitMatrix(ct.s, charInit);
      var lines := DataLines(f.wordLines, IsFastText(f.wordPath));
      match Overwrite(wt, wm0, lines, f.wordDim, f.replace, "Word embedding dimension doesn't match!")
      case Err(e) => Err(e)
      case Ok(wm) =>
        match Overwrite(ct, cm0, f.charLines, f.charDim, f.replace, "Char embedding dimension doesn't match!")
        case Err(e) => Err(e)
        case Ok(cm) => Ok(Embedded(loaded.vocab, loaded.covered, wm, cm))
  }

  /** `load_embeddings()` as written: it calls `load_dict` as written, so an
      empty dev/test vocabulary fails the whole load at the coverage report;
      otherwise it is the load above. */
  function LoadEmbeddingsAsWritten(v: Vocab, f: EmbeddingFiles, wordInit: nat -> Row, charInit: nat -> Row)
    : (r: Result<Embedded>)
    requires ValidVocab(v)
    ensures r.Ok? <==> LoadDictAsWritten(v, f).Ok?
    ensures v.wordAll == Some({}) ==> r.Err?
    ensures v.wordAll != Some({}) ==> r == LoadEmbeddings(v, f, wordInit, charInit)
  {
    var _ :- LoadDictAsWritten(v, f);
    LoadEmbeddings(v, f, wordInit, charInit)
  }
}
