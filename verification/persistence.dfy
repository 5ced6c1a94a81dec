/** `WCLSTM.save` and `WCLSTM.load`: four files under `save_dir/model_name/`,
    written to and read from a store that maps paths to what was pickled there.
    A full save writes the keyword arguments, the symbol tables (and the
    embedding matrices when `load_emb` is set) and both networks; an
    `only_param` save or load touches the two network files only. */
module Persistence {
  import opened Wrappers
  import opened SymbolTable
  import opened PyStr
  import opened Vocabulary
  import opened Config
  import opened Embeddings

  /** A network as `torch.save` writes it; its contents do not matter here. */
  datatype Net = Net(weights: seq<real>)

  /** What one file holds. */
  datatype Artifact =
    | KwargsFile(kwargs: Kwargs)
    | DictsFile(charDict: Table, wordDict: Table, emb: Option<(seq<Row>, seq<Row>)>)
    | NetFile(net: Net)

  /** The file system, path by path. */
  type Store = map<string, Artifact>

  /** The attributes of a model that `save` and `load` read and write; `None`
      is an attribute the model does not have yet. */
  datatype Model = Model(stored: Kwargs, settings: Settings, vocab: Vocab,
                         charEmb: Option<seq<Row>>, wordEmb: Option<seq<Row>>,
                         wordNet: Option<Net>, charNet: Option<Net>)

  /** The class attribute `name`. */
  const ClassName: string := "WCLSTM"

  /** `model_name or self.name`: a missing or empty name falls back to the class name. */
  function NameOf(modelName: Option<string>): (r: string)
    ensures |r| > 0
    ensures modelName.Some? && modelName.value != "" ==> r == modelName.value
  {
    if modelName.Some? && modelName.value != "" then modelName.value else ClassName
  }

  function KwargsPath(dir: string): string { Join(dir, "model_kwargs.pkl") }
  function DictsPath(dir: string): string { Join(dir, "model_dicts.pkl") }
  function WordNetPath(dir: string, name: string): string { Join(dir, name + "_word_model") }
  function CharNetPath(dir: string, name: string): string { Join(dir, name + "_char_model") }

  /** The kwargs file and the dicts file differ six characters from the end. */
  lemma ConfigFilesDiffer(dir: string)
    ensures KwargsPath(dir) != DictsPath(dir)
  {
    CharFromEnd(KwargsPath(dir), "model_kwargs.pkl", 5);
    CharFromEnd(DictsPath(dir), "model_dicts.pkl", 5);
  }

  /** The two network files differ ten characters from the end. */
  lemma NetFilesDiffer(dir: string, name: string)
    ensures WordNetPath(dir, name) != CharNetPath(dir, name)
  {
    var wn, cn := name + "_word_model", name + "_char_model";
    CharFromEnd(WordNetPath(dir, name), wn, 9);
    CharFromEnd(CharNetPath(dir, name), cn, 9);
    assert wn[|wn| - 10] == 'w' && cn[|cn| - 10] == 'c';
  }

  /** A `.pkl` file is neither network file: they differ two characters from the end. */
  lemma PickleIsNoNetFile(p: string, file: string, dir: string, name: string)
    requires EndsWith(p, file) && |file| >= 2 && file[|file| - 2] == 'k'
    ensures p != WordNetPath(dir, name) && p != CharNetPath(dir, name)
  {
    var wn, cn := name + "_word_model", name + "_char_model";
    CharFromEnd(p, file, 1);
    CharFromEnd(WordNetPath(dir, name), wn, 1);
    CharFromEnd(CharNetPath(dir, name), cn, 1);
    assert wn[|wn| - 2] == 'e' && cn[|cn| - 2] == 'e';
  }

  /** The four files of one model directory are four different paths, whatever
      the directory and the model name. */
  lemma PathsDistinct(dir: string, name: string)
    ensures KwargsPath(dir) != DictsPath(dir)
    ensures KwargsPath(dir) != WordNetPath(dir, name) && KwargsPath(dir) != CharNetPath(dir, name)
    ensures DictsPath(dir) != WordNetPath(dir, name) && DictsPath(dir) != CharNetPath(dir, name)
    ensures WordNetPath(dir, name) != CharNetPath(dir, name)
  {
    ConfigFilesDiffer(dir);
    NetFilesDiffer(dir, name);
    PickleIsNoNetFile(KwargsPath(dir), "model_kwargs.pkl", dir, name);
    PickleIsNoNetFile(DictsPath(dir), "model_dicts.pkl", dir, name);
  }

  /** The symbol tables, and with `load_emb` the embedding matrices, as the
      dict literal of `save` reads them: a missing attribute fails in the order
      `char_dict`, `word_dict`, `char_emb`, `word_emb`. */
  function DictsOf(m: Model): (r: Result<Artifact>)
    ensures r.Ok? <==> m.vocab.charDict.Some? && m.vocab.wordDict.Some?
                       && (m.settings.loadEmb ==> m.charEmb.Some? && m.wordEmb.Some?)
    ensures r.Ok? ==> r.value == DictsFile(m.vocab.charDict.value, m.vocab.wordDict.value,
                                           if m.settings.loadEmb then Some((m.charEmb.value, m.wordEmb.value)) else None)
  {
    if m.vocab.charDict.None? then Err(AttributeError("char_dict"))
    else if m.vocab.wordDict.None? then Err(AttributeError("word_dict"))
    else if !m.settings.loadEmb then Ok(DictsFile(m.vocab.charDict.value, m.vocab.wordDict.value, None))
    else if m.charEmb.None? then Err(AttributeError("char_emb"))
    else if m.wordEmb.None? then Err(AttributeError("word_emb"))
    else Ok(DictsFile(m.vocab.charDict.value, m.vocab.wordDict.value, Some((m.charEmb.value, m.wordEmb.value))))
  }

  /** The first part of a full `save`: the keyword arguments, then the dicts. */
  function SaveConfig(m: Model, dir: string, store: Store): (r: Result<Store>)
    ensures r.Ok? <==> DictsOf(m).Ok?
    ensures r.Ok? ==> r.value == store[KwargsPath(dir) := KwargsFile(m.stored)][DictsPath(dir) := DictsOf(m).value]
  {
    var dicts :- DictsOf(m);
    Ok(store[KwargsPath(dir) := KwargsFile(m.stored)][DictsPath(dir) := dicts])
  }

  /** The last part of every `save`: both networks, word first. */
  function SaveNets(m: Model, dir: string, name: string, store: Store): (r: Result<Store>)
    ensures r.Ok? <==> m.wordNet.Some? && m.charNet.Some?
    ensures r.Ok? ==> r.value == store[WordNetPath(dir, name) := NetFile(m.wordNet.value)]
                                      [CharNetPath(dir, name) := NetFile(m.charNet.value)]
  {
    if m.wordNet.None? then Err(AttributeError("word_model"))
    else if m.charNet.None? then Err(AttributeError("char_model"))
    else Ok(store[WordNetPath(dir, name) := NetFile(m.wordNet.value)][CharNetPath(dir, name) := NetFile(m.charNet.value)])
  }

  /** `save(model_name, save_dir, only_param)`: it fails exactly when an
      attribute it writes is missing. */
  function Save(m: Model, modelName: Option<string>, saveDir: string, onlyParam: bool, store: Store): (r: Result<Store>)
    ensures r.Ok? <==> m.wordNet.Some? && m.charNet.Some? && (onlyParam || DictsOf(m).Ok?)
  {
    var name := NameOf(modelName);
    var dir := Join(saveDir, name);
    var s1 :- if onlyParam then Ok(store) else SaveConfig(m, dir, store);
    SaveNets(m, dir, name, s1)
  }

  /** A successful `save` leaves the model's networks in the two network files. */
  lemma SaveWritesNets(m: Model, modelName: Option<string>, saveDir: string, onlyParam: bool, store: Store)
    requires Save(m, modelName, saveDir, onlyParam, store).Ok?
    ensures var r := Save(m, modelName, saveDir, onlyParam, store).value;
      var name := NameOf(modelName);
      var dir := Join(saveDir, name);
      && WordNetPath(dir, name) in r && r[WordNetPath(dir, name)] == NetFile(m.wordNet.value)
      && CharNetPath(dir, name) in r && r[CharNetPath(dir, name)] == NetFile(m.charNet.value)
  {
    var name := NameOf(modelName);
    var dir := Join(saveDir, name);
    NetFilesDiffer(dir, name);
    var s1 := if onlyParam then store else SaveConfig(m, dir, store).value;
    assert Save(m, modelName, saveDir, onlyParam, store) == SaveNets(m, dir, name, s1);
  }

  /** A successful full `save` leaves the stored arguments in the kwargs file
      and the tables (and matrices) in the dicts file. */
  lemma SaveWritesConfig(m: Model, modelName: Option<string>, saveDir: string, store: Store)
    requires Save(m, modelName, saveDir, false, store).Ok?
    ensures var r := Save(m, modelName, saveDir, false, store).value;
      var dir := Join(saveDir, NameOf(modelName));
      && KwargsPath(dir) in r && r[KwargsPath(dir)] == KwargsFile(m.stored)
      && DictsPath(dir) in r && r[DictsPath(dir)] == DictsOf(m).value
  {
    var name := NameOf(modelName);
    var dir := Join(saveDir, name);
    ConfigFilesDiffer(dir);
    var s1 := SaveConfig(m, dir, store).value;
    assert s1[KwargsPath(dir)] == KwargsFile(m.stored) && s1[DictsPath(dir)] == DictsOf(m).value;
    assert Save(m, modelName, saveDir, false, store) == SaveNets(m, dir, name, s1);
    NetsKeep(m, dir, name, s1, KwargsPath(dir), "model_kwargs.pkl");
    NetsKeep(m, dir, name, s1, DictsPath(dir), "model_dicts.pkl");
  }

  /** Writing the network files leaves a `.pkl` file as it was. */
  lemma NetsKeep(m: Model, dir: string, name: string, store: Store, p: string, file: string)
    requires SaveNets(m, dir, name, store).Ok? && p in store
    requires EndsWith(p, file) && |file| >= 2 && file[|file| - 2] == 'k'
    ensures p in SaveNets(m, dir, name, store).value
    ensures SaveNets(m, dir, name, store).value[p] == store[p]
  {
    PickleIsNoNetFile(p, file, dir, name);
  }

  /** A successful `save` touches no other file, and with `only_param` it adds
      at most the two network files. */
  lemma SaveFrame(m: Model, modelName: Option<string>, saveDir: string, onlyParam: bool, store: Store)
    requires Save(m, modelName, saveDir, onlyParam, store).Ok?
    ensures var r := Save(m, modelName, saveDir, onlyParam, store).value;
      var name := NameOf(modelName);
      var dir := Join(saveDir, name);
      && (forall p :: p in store && p != WordNetPath(dir, name) && p != CharNetPath(dir, name)
                      && (onlyParam || (p != KwargsPath(dir) && p != DictsPath(dir)))
                      ==> p in r && r[p] == store[p])
      && (onlyParam ==> r.Keys == store.Keys + {WordNetPath(dir, name), CharNetPath(dir, name)})
  {
  }

  /** `torch.load(path)`: a missing file fails, and so does a file that holds no network. */
  function ReadNet(store: Store, path: string): (r: Result<Net>)
    ensures r.Ok? <==> path in store && store[path].NetFile?
    ensures r.Ok? ==> store[path] == NetFile(r.value)
    ensures path !in store ==> r == Err(IOError(path))
  {
    if path !in store then Err(IOError(path))
    else match store[path]
      case NetFile(n) => Ok(n)
      case _ => Err(TypeError)
  }

  /** The last two lines of `load`: both networks, word first. */
  function LoadNets(m: Model, dir: string, name: string, store: Store): (r: Result<Model>)
    ensures r.Ok? <==> ReadNet(store, WordNetPath(dir, name)).Ok? && ReadNet(store, CharNetPath(dir, name)).Ok?
    ensures r.Ok? ==> r.value == m.(wordNet := Some(ReadNet(store, WordNetPath(dir, name)).value),
                                    charNet := Some(ReadNet(store, CharNetPath(dir, name)).value))
  {
    var w :- ReadNet(store, WordNetPath(dir, name));
    var c :- ReadNet(store, CharNetPath(dir, name));
    Ok(m.(wordNet := Some(w), charNet := Some(c)))
  }

  /** `m'` is `m` rebuilt from the re-initialised arguments `init` and the
      dicts file `d`: settings and stored arguments from `init`, the tables from
      `d`, the matrices from `d` under `load_emb` and kept otherwise, and the
      networks untouched. */
  predicate Rebuilt(m: Model, init: Initialised, d: Artifact, m': Model)
    requires d.DictsFile?
  {
    && m'.stored == init.stored && m'.settings == init.settings
    && m'.vocab == init.vocab.(charDict := Some(d.charDict), wordDict := Some(d.wordDict))
    && (init.settings.loadEmb ==> d.emb.Some? && m'.charEmb == Some(d.emb.value.0)
                                  && m'.wordEmb == Some(d.emb.value.1))
    && (!init.settings.loadEmb ==> m'.charEmb == m.charEmb && m'.wordEmb == m.wordEmb)
    && m'.wordNet == m.wordNet && m'.charNet == m.charNet
  }

  /** The attributes `load` sets from a dicts file; with `load_emb` a file
      saved without matrices fails on the missing `char_emb` key. */
  function Rebuild(m: Model, init: Initialised, d: Artifact): (r: Result<Model>)
    requires d.DictsFile?
    ensures r.Ok? <==> !init.settings.loadEmb || d.emb.Some?
    ensures r.Err? ==> r.fault == KeyError("char_emb")
    ensures r.Ok? ==> Rebuilt(m, init, d, r.value)
  {
    var vocab := init.vocab.(charDict := Some(d.charDict), wordDict := Some(d.wordDict));
    if !init.settings.loadEmb then Ok(m.(stored := init.stored, settings := init.settings, vocab := vocab))
    else if d.emb.None? then Err(KeyError("char_emb"))
    else Ok(m.(stored := init.stored, settings := init.settings, vocab := vocab,
               charEmb := Some(d.emb.value.0), wordEmb := Some(d.emb.value.1)))
  }

  /** The full part of `load`: re-run `_init_kwargs` on the stored keyword
      arguments, then take the tables (and the matrices, under `load_emb`) from
      the dicts file. A missing file is an `IOError`, a file of the wrong kind a
      `TypeError`. */
  function LoadConfig(m: Model, dir: string, store: Store): (r: Result<Model>)
    requires ValidVocab(m.vocab)
    ensures r.Ok? ==> KwargsPath(dir) in store && store[KwargsPath(dir)].KwargsFile?
    ensures r.Ok? ==> DictsPath(dir) in store && store[DictsPath(dir)].DictsFile?
    ensures KwargsPath(dir) !in store ==> r == Err(IOError(KwargsPath(dir)))
    ensures r.Ok? ==> InitKwargs(store[KwargsPath(dir)].kwargs, m.vocab).Ok?
    ensures r.Ok? ==> Rebuilt(m, InitKwargs(store[KwargsPath(dir)].kwargs, m.vocab).value,
                              store[DictsPath(dir)], r.value)
  {
    var kpath := KwargsPath(dir);
    var dpath := DictsPath(dir);
    if kpath !in store then Err(IOError(kpath))
    else if !store[kpath].KwargsFile? then Err(TypeError)
    else
      var init :- InitKwargs(store[kpath].kwargs, m.vocab);
      if dpath !in store then Err(IOError(dpath))
      else if !store[dpath].DictsFile? then Err(TypeError)
      else Rebuild(m, init, store[dpath])
  }

  /** `load(model_name, save_dir, only_param)`. */
  function Load(m: Model, modelName: Option<string>, saveDir: string, onlyParam: bool, store: Store): (r: Result<Model>)
    requires ValidVocab(m.vocab)
    ensures onlyParam ==> r == LoadNets(m, Join(saveDir, NameOf(modelName)), NameOf(modelName), store)
    ensures !onlyParam && LoadConfig(m, Join(saveDir, NameOf(modelName)), store).Err? ==> r.Err?
    ensures !onlyParam && LoadConfig(m, Join(saveDir, NameOf(modelName)), store).Ok? ==>
      r == LoadNets(LoadConfig(m, Join(saveDir, NameOf(modelName)), store).value,
                    Join(saveDir, NameOf(modelName)), NameOf(modelName), store)
  {
    var name := NameOf(modelName);
    var dir := Join(saveDir, name);
    if onlyParam then LoadNets(m, dir, name, store)
    else
      var m1 :- LoadConfig(m, dir, store);
      LoadNets(m1, dir, name, store)
  }

  /** A model as `_init_kwargs` and training leave it: settings read from the
      stored arguments, whose one-shot key is spent, both tables and both
      networks present, and the matrices present when `load_emb` is set. */
  ghost predicate Complete(m: Model) {
    && ValidVocab(m.vocab)
    && m.stored.initPretrained == Absent
    && m.settings == SettingsOf(m.stored)
    && !(m.settings.loadEmb && (m.stored.wordEmbPath.None? || m.stored.charEmbPath.None?))
    && m.vocab.charDict.Some? && m.vocab.wordDict.Some?
    && (m.settings.loadEmb ==> m.charEmb.Some? && m.wordEmb.Some?)
    && m.wordNet.Some? && m.charNet.Some?
  }

  /** The model a full load of `m`'s files makes of `m'`: `m`'s stored
      arguments, settings, tables and networks, `m`'s matrices when `load_emb`
      is set, and `m'`'s own dev/test vocabulary. */
  function Restored(m: Model, m': Model): Model
    requires m.vocab.charDict.Some? && m.vocab.wordDict.Some?
  {
    m'.(stored := m.stored, settings := m.settings,
        vocab := m'.vocab.(charDict := m.vocab.charDict, wordDict := m.vocab.wordDict),
        charEmb := if m.settings.loadEmb then m.charEmb else m'.charEmb,
        wordEmb := if m.settings.loadEmb then m.wordEmb else m'.wordEmb,
        wordNet := m.wordNet, charNet := m.charNet)
  }

  /** A full save of a complete model succeeds, and a full load of what it wrote
      into any model under the same name gives back the saved model's stored
      arguments, settings, tables and networks, and its matrices when
      `load_emb` is set. */
  lemma SaveLoadRoundTrip(m: Model, m': Model, modelName: Option<string>, saveDir: string, store: Store)
    requires Complete(m) && ValidVocab(m'.vocab)
    ensures Save(m, modelName, saveDir, false, store).Ok?
    ensures Load(m', modelName, saveDir, false, Save(m, modelName, saveDir, false, store).value)
            == Ok(Restored(m, m'))
  {
    var name := NameOf(modelName);
    var dir := Join(saveDir, name);
    SaveWritesNets(m, modelName, saveDir, false, store);
    SaveWritesConfig(m, modelName, saveDir, store);
    var saved := Save(m, modelName, saveDir, false, store).value;
    assert saved[KwargsPath(dir)] == KwargsFile(m.stored);
    assert saved[DictsPath(dir)] == DictsOf(m).value;
    InitKwargsStoredIsStable(m.stored, m.vocab, m'.vocab);
    assert InitKwargs(m.stored, m'.vocab) == Ok(Initialised(m.settings, m.stored, m'.vocab)) by {
      assert m.stored.(initPretrained := Absent) == m.stored;
    }
    var m1 := m'.(stored := m.stored, settings := m.settings,
                  vocab := m'.vocab.(charDict := m.vocab.charDict, wordDict := m.vocab.wordDict),
                  charEmb := if m.settings.loadEmb then m.charEmb else m'.charEmb,
                  wordEmb := if m.settings.loadEmb then m.wordEmb else m'.wordEmb);
    assert Rebuild(m', Initialised(m.settings, m.stored, m'.vocab), saved[DictsPath(dir)]) == Ok(m1);
    assert LoadConfig(m', dir, saved) == Ok(m1);
    assert LoadNets(m1, dir, name, saved) == Ok(Restored(m, m'));
  }

  /** The checkpoint pair of `train`: an `only_param` load of what an
      `only_param` save wrote replaces exactly the two networks. */
  lemma ParamRoundTrip(m: Model, m': Model, modelName: Option<string>, saveDir: string, store: Store)
    requires m.wordNet.Some? && m.charNet.Some? && ValidVocab(m'.vocab)
    ensures Save(m, modelName, saveDir, true, store).Ok?
    ensures Load(m', modelName, saveDir, true, Save(m, modelName, saveDir, true, store).value)
            == Ok(m'.(wordNet := m.wordNet, charNet := m.charNet))
  {
    var name := NameOf(modelName);
    PathsDistinct(Join(saveDir, name), name);
  }

  /** Two models saved under distinct plain names in one directory share no
      file: their directories differ, and so do their kwargs, dicts and
      network files. */
  lemma NamesDoNotCollide(saveDir: string, n1: string, n2: string)
    requires |n1| > 0 && |n2| > 0 && n1[0] != '/' && n2[0] != '/'
    requires '/' !in n1 && '/' !in n2
    requires n1 != n2
    ensures Join(saveDir, n1) != Join(saveDir, n2)
    ensures var d1, d2 := Join(saveDir, n1), Join(saveDir, n2);
      && KwargsPath(d1) != KwargsPath(d2)
      && DictsPath(d1) != DictsPath(d2)
      && WordNetPath(d1, n1) != WordNetPath(d2, n2)
      && CharNetPath(d1, n1) != CharNetPath(d2, n2)
  {
    JoinInjective(saveDir, n1, n2);
    FilesApart(saveDir, n1, n2, "model_kwargs.pkl", "model_kwargs.pkl");
    FilesApart(saveDir, n1, n2, "model_dicts.pkl", "model_dicts.pkl");
    FilesApart(saveDir, n1, n2, n1 + "_word_model", n2 + "_word_model");
    FilesApart(saveDir, n1, n2, n1 + "_char_model", n2 + "_char_model");
  }

  /** A file directly under `saveDir/n1` is never a file directly under
      `saveDir/n2`: past the common prefix, the first slash comes after the
      name, and the names differ there. */
  lemma FilesApart(saveDir: string, n1: string, n2: string, f1: string, f2: string)
    requires |n1| > 0 && |n2| > 0 && n1[0] != '/' && n2[0] != '/'
    requires '/' !in n1 && '/' !in n2
    requires n1 != n2
    requires |f1| > 0 && |f2| > 0 && f1[0] != '/' && f2[0] != '/'
    ensures Join(Join(saveDir, n1), f1) != Join(Join(saveDir, n2), f2)
  {
    var p := DirPrefix(saveDir);
    UnderName(saveDir, n1, f1);
    UnderName(saveDir, n2, f2);
    var x, y := n1 + "/" + f1, n2 + "/" + f2;
    SlashAfterName(n1, n2, f1, f2);
    assert (p + x)[|p|..] == x && (p + y)[|p|..] == y;
  }

  /** What `os.path.join` puts in front of a relative name. */
  function DirPrefix(dir: string): string {
    if dir == "" || dir[|dir| - 1] == '/' then dir else dir + "/"
  }

  /** A file joined under a name joined under a directory. */
  lemma UnderName(dir: string, n: string, f: string)
    requires |n| > 0 && n[0] != '/' && '/' !in n
    requires |f| > 0 && f[0] != '/'
    ensures Join(Join(dir, n), f) == DirPrefix(dir) + (n + "/" + f)
  {
    var p := DirPrefix(dir);
    var d := Join(dir, n);
    assert d == p + n;
    assert n[|n| - 1] in n;
    assert d[|d| - 1] == n[|n| - 1];
    assert Join(d, f) == d + "/" + f;
    assert (p + n) + "/" + f == p + (n + "/" + f);
  }

  /** Two distinct names without slashes, each followed by a slash, disagree
      within the shorter name or at its end. */
  lemma SlashAfterName(n1: string, n2: string, f1: string, f2: string)
    requires '/' !in n1 && '/' !in n2 && n1 != n2
    ensures n1 + "/" + f1 != n2 + "/" + f2
  {
    var x, y := n1 + "/" + f1, n2 + "/" + f2;
    if |n1| == |n2| {
      assert x[..|n1|] == n1 && y[..|n2|] == n2;
    } else if |n1| < |n2| {
      assert x[|n1|] == '/' && y[|n1|] == n2[|n1|];
      assert n2[|n1|] in n2;
    } else {
      assert y[|n2|] == '/' && x[|n2|] == n1[|n2|];
      assert n1[|n2|] in n1;
    }
  }
}
