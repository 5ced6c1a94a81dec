/** `WCLSTM.create_dict` and `WCLSTM.load_dict`: the training symbol tables, the
    dev/test vocabulary sets (`word_dict_all`, `char_dict_all`), and the growth
    of the training tables by the pretrained-embedding tokens that occur in the
    dev/test vocabulary. */
module Vocabulary {
  import opened Wrappers
  import opened SymbolTable
  import opened PyStr
  import opened Preprocess

  /** The vocabulary attributes of a model; `None` is an attribute the model
      does not have yet (`hasattr` is false). */
  datatype Vocab = Vocab(wordDict: Option<Table>, charDict: Option<Table>,
                         wordAll: Option<set<string>>, charAll: Option<set<string>>)

  ghost predicate ValidVocab(v: Vocab) {
    && (v.wordDict.Some? ==> Valid(v.wordDict.value))
    && (v.charDict.Some? ==> Valid(v.charDict.value))
  }

  /** The `init_pretrained` argument: the training candidates and the list of dev/test candidate sets. */
  datatype Splits = Splits(train: seq<Candidate>, test: seq<seq<Candidate>>)

  /** `list(' '.join(words))`: the characters of a sentence, blanks between tokens included. */
  function SentenceChars(words: seq<string>): seq<string> {
    Characters(SpaceJoin(words))
  }

  /** The dev/test candidates, set after set. */
  function Flatten(sets: seq<seq<Candidate>>): (r: seq<Candidate>)
    ensures |sets| == 0 ==> |r| == 0
  {
    if |sets| == 0 then [] else sets[0] + Flatten(sets[1..])
  }

  /** `w` is a token of one of the candidates. */
  ghost predicate InWords(cs: seq<Candidate>, w: string) {
    exists i :: 0 <= i < |cs| && w in cs[i].words
  }

  /** `w` is a character of one of the candidates' sentences. */
  ghost predicate InChars(cs: seq<Candidate>, w: string) {
    exists i :: 0 <= i < |cs| && w in SentenceChars(cs[i].words)
  }

  lemma InWordsCons(cs: seq<Candidate>)
    requires |cs| > 0
    ensures forall w :: InWords(cs, w) <==> w in cs[0].words || InWords(cs[1..], w)
  {
    forall w | InWords(cs, w)
      ensures w in cs[0].words || InWords(cs[1..], w)
    {
      var i :| 0 <= i < |cs| && w in cs[i].words;
      if i > 0 {
        assert cs[1..][i - 1] == cs[i];
      }
    }
    forall w | InWords(cs[1..], w)
      ensures InWords(cs, w)
    {
      var i :| 0 <= i < |cs[1..]| && w in cs[1..][i].words;
      assert cs[1..][i] == cs[i + 1];
    }
  }

  lemma InCharsCons(cs: seq<Candidate>)
    requires |cs| > 0
    ensures forall w :: InChars(cs, w) <==> w in SentenceChars(cs[0].words) || InChars(cs[1..], w)
  {
    forall w | InChars(cs, w)
      ensures w in SentenceChars(cs[0].words) || InChars(cs[1..], w)
    {
      var i :| 0 <= i < |cs| && w in SentenceChars(cs[i].words);
      if i > 0 {
        assert cs[1..][i - 1] == cs[i];
      }
    }
    forall w | InChars(cs[1..], w)
      ensures InChars(cs, w)
    {
      var i :| 0 <= i < |cs[1..]| && w in SentenceChars(cs[1..][i].words);
      assert cs[1..][i] == cs[i + 1];
    }
  }

  /** The training loop of `create_dict`: every token goes through the word
      table's `get` when `word` is set, every sentence character through the
      char table's `get` when `char` is set. */
  function TrainTables(wd: Option<Table>, cd: Option<Table>, train: seq<Candidate>, useWord: bool, useChar: bool)
    : (r: (Option<Table>, Option<Table>))
    requires useWord ==> wd.Some? && Valid(wd.value)
    requires useChar ==> cd.Some? && Valid(cd.value)
    ensures useWord ==> r.0.Some? && Valid(r.0.value) && Grows(wd.value, r.0.value)
    ensures useWord ==> forall w :: w in r.0.value.d <==> w in wd.value.d || InWords(train, w)
    ensures !useWord ==> r.0 == wd
    ensures useChar ==> r.1.Some? && Valid(r.1.value) && Grows(cd.value, r.1.value)
    ensures useChar ==> forall w :: w in r.1.value.d <==> w in cd.value.d || InChars(train, w)
    ensures !useChar ==> r.1 == cd
    decreases |train|
  {
    if |train| == 0 then (wd, cd)
    else
      var wd1 := if useWord then Some(GetAll(wd.value, train[0].words).0) else wd;
      var cd1 := if useChar then Some(GetAll(cd.value, SentenceChars(train[0].words)).0) else cd;
      var r := TrainTables(wd1, cd1, train[1..], useWord, useChar);
      InWordsCons(train);
      InCharsCons(train);
      r
  }

  /** The dev/test loop of `create_dict`. Both updates are guarded by `word`, so
      with `word` unset nothing happens, and with `word` set a model that has no
      `char_dict_all` fails at the first dev/test candidate. */
  function TestSets(wa: Option<set<string>>, ca: Option<set<string>>, cands: seq<Candidate>, useWord: bool)
    : (r: Result<(Option<set<string>>, Option<set<string>>)>)
    requires useWord ==> wa.Some?
    ensures r.Err? <==> useWord && ca.None? && |cands| > 0
    ensures r.Err? ==> r.fault == AttributeError("char_dict_all")
    ensures r.Ok? && (!useWord || |cands| == 0) ==> r.value == (wa, ca)
    ensures r.Ok? && useWord && |cands| > 0 ==>
      && r.value.0.Some? && r.value.1.Some?
      && (forall w :: w in r.value.0.value <==> w in wa.value || InWords(cands, w))
      && (forall w :: w in r.value.1.value <==> w in ca.value || InChars(cands, w))
    decreases |cands|
  {
    if |cands| == 0 || !useWord then Ok((wa, ca))
    else if ca.None? then Err(AttributeError("char_dict_all"))
    else
      var wa1 := wa.value + set w | w in cands[0].words;
      var ca1 := ca.value + set w | w in SentenceChars(cands[0].words);
      var r := TestSets(Some(wa1), Some(ca1), cands[1..], useWord);
      InWordsCons(cands);
      InCharsCons(cands);
      r
  }

  /** `create_dict(splits, word, char)`. As written: the char table is created
      empty (the markers go through `char_dict_all.get`, which inserts nothing),
      and the dev/test char set is filled only under `word`. The closing report
      reads `word_dict.s` and `word_dict_all`, so a model that lacks either fails. */
  function CreateDict(v: Vocab, splits: Splits, useWord: bool, useChar: bool): (r: Result<Vocab>)
    requires ValidVocab(v)
    ensures r.Ok? ==> ValidVocab(r.value)
    ensures r.Ok? <==>
      && (useWord || (v.wordDict.Some? && v.wordAll.Some?))
      && !(useWord && !useChar && v.charAll.None? && |Flatten(splits.test)| > 0)
    ensures r.Ok? && useWord ==> r.value.wordDict.Some? && r.value.wordAll.Some?
    ensures r.Ok? && useWord ==> forall w :: w in r.value.wordDict.value.d <==> w in WordMarkers || InWords(splits.train, w)
    ensures r.Ok? && useWord ==> forall w :: w in r.value.wordAll.value <==> InWords(Flatten(splits.test), w)
    ensures r.Ok? && useChar ==> r.value.charDict.Some?
    ensures r.Ok? && useChar ==> forall w :: w in r.value.charDict.value.d <==> InChars(splits.train, w)
    ensures r.Ok? && useWord && useChar ==>
      r.value.charAll.Some? && forall w :: w in r.value.charAll.value <==> InChars(Flatten(splits.test), w)
    ensures r.Ok? && !useWord ==> r.value.wordDict == v.wordDict && r.value.wordAll == v.wordAll
    ensures r.Ok? && !useChar ==> r.value.charDict == v.charDict
    ensures r.Ok? && !useWord && useChar ==> r.value.charAll == Some({})
    ensures r.Ok? && !useWord && !useChar ==> r.value.charAll == v.charAll
    ensures r.Ok? && useWord && !useChar && v.charAll.None? ==> r.value.charAll.None?
    ensures r.Ok? && useWord && !useChar && v.charAll.Some? ==>
      r.value.charAll.Some? &&
      forall w :: w in r.value.charAll.value <==> w in v.charAll.value || InChars(Flatten(splits.test), w)
  {
    var wd := if useWord then Some(SeededWordTable()) else v.wordDict;
    var wa: Option<set<string>> := if useWord then Some({}) else v.wordAll;
    var cd := if useChar then Some(Empty()) else v.charDict;
    var ca: Option<set<string>> := if useChar then Some({}) else v.charAll;
    var (wd1, cd1) := TrainTables(wd, cd, splits.train, useWord, useChar);
    var sets :- TestSets(wa, ca, Flatten(splits.test), useWord);
    if wd1.None? then Err(AttributeError("word_dict"))
    else if sets.0.None? then Err(AttributeError("word_dict_all"))
    else Ok(Vocab(wd1, cd1, sets.0, sets.1))
  }

  /** The token of an embedding line after the placeholder replacements. */
  function LineToken(line: seq<string>, table: seq<(string, string)>): string
    requires |line| >= 1
  {
    ApplyReplacements(line[0], table)
  }

  /** Some line of the file yields the token `w`. */
  ghost predicate FileHas(lines: seq<seq<string>>, table: seq<(string, string)>, w: string) {
    exists i :: 0 <= i < |lines| && |lines[i]| >= 1 && LineToken(lines[i], table) == w
  }

  /** Every line splits into the token and `dim` values. */
  predicate AllWidth(lines: seq<seq<string>>, dim: nat) {
    forall i :: 0 <= i < |lines| ==> |lines[i]| == dim + 1
  }

  /** The header line of a fastText `.vec` file is skipped. */
  function DataLines(lines: seq<seq<string>>, fastText: bool): (r: seq<seq<string>>)
    ensures |r| <= |lines|
    ensures fastText && |lines| > 0 ==> |r| == |lines| - 1
    ensures !fastText ==> r == lines
    ensures forall i :: 0 <= i < |r| ==> r[i] == lines[i + |lines| - |r|]
  {
    if fastText && |lines| > 0 then lines[1..] else lines
  }

  /** `fmt = "fastText" if path.split(".")[-1] == "vec" else "txt"`. */
  predicate IsFastText(path: string) {
    LastDotField(path) == "vec"
  }

  /** The line's replaced token is in the dev/test set `keep`. */
  predicate KeptLine(line: seq<string>, table: seq<(string, string)>, keep: Option<set<string>>) {
    |line| >= 1 && keep.Some? && LineToken(line, table) in keep.value
  }

  /** The replaced tokens of the kept lines, in file order, one per line. */
  function KeptTokens(lines: seq<seq<string>>, table: seq<(string, string)>, keep: Option<set<string>>): seq<string>
  {
    if |lines| == 0 then []
    else
      var last := lines[|lines| - 1];
      KeptTokens(lines[..|lines| - 1], table, keep) + if KeptLine(last, table, keep) then [LineToken(last, table)] else []
  }

  /** The kept tokens of a file are those of its first line followed by those of the rest. */
  lemma {:induction false} KeptTokensCons(lines: seq<seq<string>>, table: seq<(string, string)>, keep: Option<set<string>>)
    requires |lines| > 0
    ensures KeptTokens(lines, table, keep) ==
      (if KeptLine(lines[0], table, keep) then [LineToken(lines[0], table)] else []) + KeptTokens(lines[1..], table, keep)
    decreases |lines|
  {
    var n := |lines|;
    if n > 1 {
      var front := lines[..n - 1];
      KeptTokensCons(front, table, keep);
      assert front[0] == lines[0];
      assert lines[1..][..n - 2] == front[1..];
      assert lines[1..][n - 2] == lines[n - 1];
    } else {
      assert lines[..0] == [] && lines[1..] == [];
    }
  }

  /** One pass of `load_dict` over an embedding file: a line of the wrong width
      fails the load; a line whose replaced token is in the dev/test set `keep`
      is collected, and counted in `n`. */
  function Collect(lines: seq<seq<string>>, dim: nat, table: seq<(string, string)>,
                   keep: Option<set<string>>, message: string): (r: Result<(seq<string>, nat)>)
    ensures r.Ok? <==> AllWidth(lines, dim)
    ensures r.Err? ==> r.fault == AssertionError(message)
    ensures r.Ok? ==> r.value.1 == |r.value.0| <= |lines|
    ensures r.Ok? && keep.None? ==> r.value.1 == 0
    ensures r.Ok? ==> forall w :: w in r.value.0 <==>
      keep.Some? && w in keep.value && FileHas(lines, table, w)
    ensures r.Ok? ==> r.value.0 == KeptTokens(lines, table, keep)
    decreases |lines|
  {
    if |lines| == 0 then Ok(([], 0))
    else if |lines[0]| != dim + 1 then Err(AssertionError(message))
    else
      var rest :- Collect(lines[1..], dim, table, keep, message);
      var w := LineToken(lines[0], table);
      assert forall i :: 1 <= i < |lines| ==> lines[1..][i - 1] == lines[i];
      assert forall x :: FileHas(lines, table, x) <==> x == w || FileHas(lines[1..], table, x);
      assert AllWidth(lines, dim) <==> AllWidth(lines[1..], dim);
      KeptTokensCons(lines, table, keep);
      if keep.Some? && w in keep.value then Ok(([w] + rest.0, rest.1 + 1)) else Ok(rest)
  }

  /** The state `load_dict` leaves and the coverage count `n` it reports. */
  datatype Loaded = Loaded(vocab: Vocab, covered: nat)

  /** The settings and inputs `load_dict` reads: paths, widths, the placeholder
      table, and the files' lines already split on blanks. */
  datatype EmbeddingFiles = EmbeddingFiles(wordPath: string, wordLines: seq<seq<string>>, wordDim: nat,
                                           charLines: seq<seq<string>>, charDim: nat,
                                           replace: seq<(string, string)>)

  /** A table created when missing and re-seeded with its markers. */
  function Seed(t: Option<Table>, markers: seq<string>): (r: Table)
    requires t.Some? ==> Valid(t.value)
    ensures Valid(r)
    ensures t.Some? ==> Grows(t.value, r)
    ensures forall w :: w in r.d <==> (t.Some? && w in t.value.d) || w in markers
  {
    GetAll(if t.Some? then t.value else Empty(), markers).0
  }

  /** A seeded table grown by the collected pretrained tokens, in file order. */
  function Grow(t: Option<Table>, markers: seq<string>, tokens: seq<string>): (r: Table)
    requires t.Some? ==> Valid(t.value)
    ensures Valid(r)
    ensures t.Some? ==> Grows(t.value, r)
    ensures forall w :: w in r.d <==> (t.Some? && w in t.value.d) || w in markers || w in tokens
  {
    var seeded := Seed(t, markers);
    var r := GetAll(seeded, tokens).0;
    GrowsTrans(t, seeded, r);
    r
  }

  /** `v'` is `v` after `load_dict`: both tables exist and hold every entry of
      the old ones under the same id, and the dev/test sets are untouched. */
  ghost predicate Extends(v: Vocab, v': Vocab) {
    && ValidVocab(v')
    && v'.wordDict.Some? && v'.charDict.Some?
    && v'.wordAll == v.wordAll && v'.charAll == v.charAll
    && (v.wordDict.Some? ==> Grows(v.wordDict.value, v'.wordDict.value))
    && (v.charDict.Some? ==> Grows(v.charDict.value, v'.charDict.value))
  }

  /** The vocabulary after both tables are seeded and grown by the collected
      tokens. */
  function Grown(v: Vocab, words: seq<string>, chars: seq<string>): (r: Vocab)
    requires ValidVocab(v)
    ensures Extends(v, r)
  {
    var wd := Grow(v.wordDict, WordMarkers, words);
    var cd := Grow(v.charDict, CharMarkers, chars);
    assert ValidVocab(Vocab(Some(wd), Some(cd), v.wordAll, v.charAll));
    Vocab(Some(wd), Some(cd), v.wordAll, v.charAll)
  }

  /** `load_dict()` with the coverage report left harmless (see `LoadDictAsWritten`):
      the word table grows by the pretrained tokens in `word_dict_all`, the char
      table by the pretrained chars in `char_dict_all`, and nothing else changes. */
  function LoadDict(v: Vocab, f: EmbeddingFiles): (r: Result<Loaded>)
    requires ValidVocab(v)
    ensures r.Ok? <==>
      AllWidth(DataLines(f.wordLines, IsFastText(f.wordPath)), f.wordDim) && AllWidth(f.charLines, f.charDim)
    ensures r.Ok? ==> Extends(v, r.value.vocab)
    ensures r.Ok? ==> r.value.covered <= |DataLines(f.wordLines, IsFastText(f.wordPath))|
    ensures r.Ok? && v.wordAll.None? ==> r.value.covered == 0
  {
    var words :- Collect(DataLines(f.wordLines, IsFastText(f.wordPath)), f.wordDim, f.replace, v.wordAll,
                         "Word embedding dimension doesn't match!");
    var chars :- Collect(f.charLines, f.charDim, f.replace, v.charAll, "Char embedding dimension doesn't match!");
    Ok(Loaded(Grown(v, words.0, chars.0), words.1))
  }

  /** The coverage count `n` of `load_dict` is the number of word lines whose
      replaced token is in the dev/test vocabulary. */
  lemma LoadDictCovered(v: Vocab, f: EmbeddingFiles)
    requires ValidVocab(v) && LoadDict(v, f).Ok?
    ensures LoadDict(v, f).value.covered ==
      |KeptTokens(DataLines(f.wordLines, IsFastText(f.wordPath)), f.replace, v.wordAll)|
  {
  }

  /** What `load_dict` adds: the word table ends up holding its old tokens, the
      paddings, and exactly those pretrained tokens that are in `word_dict_all`;
      the char table likewise with `char_dict_all`. */
  lemma LoadDictKeys(v: Vocab, f: EmbeddingFiles)
    requires ValidVocab(v)
    requires AllWidth(DataLines(f.wordLines, IsFastText(f.wordPath)), f.wordDim) && AllWidth(f.charLines, f.charDim)
    ensures LoadDict(v, f).Ok?
    ensures var t := LoadDict(v, f).value.vocab.wordDict.value;
      forall w :: w in t.d <==>
        || (v.wordDict.Some? && w in v.wordDict.value.d)
        || w in WordMarkers
        || (v.wordAll.Some? && w in v.wordAll.value
            && FileHas(DataLines(f.wordLines, IsFastText(f.wordPath)), f.replace, w))
    ensures var t := LoadDict(v, f).value.vocab.charDict.value;
      forall w :: w in t.d <==>
        || (v.charDict.Some? && w in v.charDict.value.d)
        || w in CharMarkers
        || (v.charAll.Some? && w in v.charAll.value && FileHas(f.charLines, f.replace, w))
  {
    var lines := DataLines(f.wordLines, IsFastText(f.wordPath));
    var words := Collect(lines, f.wordDim, f.replace, v.wordAll, "Word embedding dimension doesn't match!");
    var chars := Collect(f.charLines, f.charDim, f.replace, v.charAll, "Char embedding dimension doesn't match!");
    assert words.Ok? && chars.Ok?;
    assert LoadDict(v, f).value.vocab == Grown(v, words.value.0, chars.value.0);
  }

  lemma GrowsTrans(t0: Option<Table>, t1: Table, t2: Table)
    requires t0.Some? ==> Grows(t0.value, t1)
    requires Grows(t1, t2)
    ensures t0.Some? ==> Grows(t0.value, t2)
  {
  }

  /** `load_dict()` as written: after the word pass the coverage report divides
      by `len(word_dict_all)`, which raises when the dev/test vocabulary is empty. */
  function LoadDictAsWritten(v: Vocab, f: EmbeddingFiles): (r: Result<Loaded>)
    requires ValidVocab(v)
    ensures v.wordAll != Some({}) ==> r == LoadDict(v, f)
    ensures v.wordAll == Some({}) ==> r.Err?
  {
    var words :- Collect(DataLines(f.wordLines, IsFastText(f.wordPath)), f.wordDim, f.replace, v.wordAll,
                         "Word embedding dimension doesn't match!");
    if v.wordAll.Some? && |v.wordAll.value| == 0 then Err(ZeroDivisionError)
    else
      var chars :- Collect(f.charLines, f.charDim, f.replace, v.charAll, "Char embedding dimension doesn't match!");
      Ok(Loaded(Grown(v, words.0, chars.0), words.1))
  }

  /** The discrepancy, for every input: with an empty dev/test vocabulary and
      well-formed files, the as-written load raises while the load itself has
      nothing to object to. */
  lemma EmptyDevVocabularyFails(v: Vocab, f: EmbeddingFiles)
    requires ValidVocab(v) && v.wordAll == Some({})
    requires AllWidth(DataLines(f.wordLines, IsFastText(f.wordPath)), f.wordDim) && AllWidth(f.charLines, f.charDim)
    ensures LoadDictAsWritten(v, f) == Err(ZeroDivisionError)
    ensures LoadDict(v, f).Ok?
  {
  }

  /** An instance: an empty dev/test vocabulary and a file `emb.txt` holding
      one well-formed word line, say `the 0.1`. */
  lemma EmptyDevVocabularyCrashes(token: string, value: string)
    ensures var v := Vocab(None, None, Some({}), Some({}));
            var f := EmbeddingFiles("emb.txt", [[token, value]], 1, [], 1, []);
            && LoadDictAsWritten(v, f) == Err(ZeroDivisionError)
            && LoadDict(v, f).Ok?
  {
    OneLineTxtFile(token, value);
    EmptyDevVocabularyFails(Vocab(None, None, Some({}), Some({})),
                            EmbeddingFiles("emb.txt", [[token, value]], 1, [], 1, []));
  }

  /** A `.txt` file is read in the plain format, its first line included, so a
      one-line file of one value is well formed for dimension 1. */
  lemma OneLineTxtFile(token: string, value: string)
    ensures !IsFastText("emb.txt")
    ensures AllWidth(DataLines([[token, value]], IsFastText("emb.txt")), 1)
  {
    assert LastDotField("emb.txt") == "txt";
  }

  /** `create_dict` with both flags set never fails. */
  lemma CreateDictBothSucceeds(v: Vocab, splits: Splits)
    requires ValidVocab(v)
    ensures CreateDict(v, splits, true, true).Ok?
  {
  }
}
