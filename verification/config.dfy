/** `WCLSTM._init_kwargs`: the user's keyword arguments, the settings read from
    them with their defaults, and the one-shot `init_pretrained` argument that
    builds the vocabulary and is then dropped from the stored arguments. */
module Config {
  import opened Wrappers
  import opened Vocabulary

  /** The `init_pretrained` key: missing, present with a falsy value (an empty
      dict), or present with the splits to build the vocabulary from. */
  datatype Pretrained = Absent | Falsy | Given(splits: Splits)

  /** The keyword arguments, one field per key the model reads; `None` is a key
      the caller did not pass. */
  datatype Kwargs = Kwargs(
    initPretrained: Pretrained,
    loadEmb: Option<bool>,
    wordEmbDim: Option<nat>,
    charEmbDim: Option<nat>,
    wordEmbPath: Option<string>,
    charEmbPath: Option<string>,
    lr: Option<real>,
    attention: Option<bool>,
    nEpochs: Option<int>,
    dropout: Option<real>,
    batchSize: Option<nat>,
    rebalance: Option<bool>,
    charGram: Option<nat>,
    lstmHiddenDim: Option<nat>,
    bidirectional: Option<bool>,
    maxSentenceLength: Option<int>,
    maxWordLength: Option<nat>,
    hostDevice: Option<string>,
    replace: Option<seq<(string, string)>>,
    patience: Option<int>)

  /** The settings `_init_kwargs` leaves on the model. A missing path is `None`. */
  datatype Settings = Settings(
    loadEmb: bool,
    wordEmbDim: nat,
    charEmbDim: nat,
    wordEmbPath: Option<string>,
    charEmbPath: Option<string>,
    lr: real,
    attention: bool,
    nEpochs: int,
    dropout: real,
    batchSize: nat,
    rebalance: bool,
    charGram: nat,
    lstmHiddenDim: nat,
    bidirectional: bool,
    maxSentenceLength: int,
    maxWordLength: nat,
    hostDevice: string,
    replace: seq<(string, string)>,
    patience: int)

  /** No keyword arguments at all. */
  const NoKwargs := Kwargs(Absent, None, None, None, None, None, None, None, None, None,
                           None, None, None, None, None, None, None, None, None, None)

  /** `kwargs.get(key, default)`. */
  function GetOr<T>(o: Option<T>, default: T): (r: T)
    ensures o.Some? ==> r == o.value
    ensures o.None? ==> r == default
  {
    match o
    case Some(x) => x
    case None => default
  }

  /** The settings read from `kw`, each falling back to its documented default. */
  function SettingsOf(kw: Kwargs): (c: Settings)
    ensures kw.loadEmb.None? ==> !c.loadEmb
    ensures kw.wordEmbDim.None? ==> c.wordEmbDim == 300
    ensures kw.charEmbDim.None? ==> c.charEmbDim == 300
    ensures c.wordEmbPath == kw.wordEmbPath && c.charEmbPath == kw.charEmbPath
    ensures kw.lr.None? ==> c.lr == 0.001
    ensures kw.attention.None? ==> c.attention
    ensures kw.nEpochs.None? ==> c.nEpochs == 100
    ensures kw.dropout.None? ==> c.dropout == 0.0
    ensures kw.batchSize.None? ==> c.batchSize == 100
    ensures kw.rebalance.None? ==> !c.rebalance
    ensures kw.charGram.None? ==> c.charGram == 3
    ensures kw.lstmHiddenDim.None? ==> c.lstmHiddenDim == 100
    ensures kw.bidirectional.None? ==> c.bidirectional
    ensures kw.maxSentenceLength.None? ==> c.maxSentenceLength == 100
    ensures kw.maxWordLength.None? ==> c.maxWordLength == 20
    ensures kw.hostDevice.None? ==> c.hostDevice == "cpu"
    ensures kw.replace.None? ==> c.replace == []
    ensures kw.patience.None? ==> c.patience == 100
  {
    Settings(
      GetOr(kw.loadEmb, false),
      GetOr(kw.wordEmbDim, 300),
      GetOr(kw.charEmbDim, 300),
      kw.wordEmbPath,
      kw.charEmbPath,
      GetOr(kw.lr, 0.001),
      GetOr(kw.attention, true),
      GetOr(kw.nEpochs, 100),
      GetOr(kw.dropout, 0.0),
      GetOr(kw.batchSize, 100),
      GetOr(kw.rebalance, false),
      GetOr(kw.charGram, 3),
      GetOr(kw.lstmHiddenDim, 100),
      GetOr(kw.bidirectional, true),
      GetOr(kw.maxSentenceLength, 100),
      GetOr(kw.maxWordLength, 20),
      GetOr(kw.hostDevice, "cpu"),
      GetOr(kw.replace, []),
      GetOr(kw.patience, 100))
  }

  /** Every key the caller passes is read back unchanged. */
  lemma SettingsKeepGiven(kw: Kwargs)
    ensures kw.loadEmb.Some? ==> SettingsOf(kw).loadEmb == kw.loadEmb.value
    ensures kw.wordEmbDim.Some? ==> SettingsOf(kw).wordEmbDim == kw.wordEmbDim.value
    ensures kw.charEmbDim.Some? ==> SettingsOf(kw).charEmbDim == kw.charEmbDim.value
    ensures kw.lr.Some? ==> SettingsOf(kw).lr == kw.lr.value
    ensures kw.attention.Some? ==> SettingsOf(kw).attention == kw.attention.value
    ensures kw.nEpochs.Some? ==> SettingsOf(kw).nEpochs == kw.nEpochs.value
    ensures kw.dropout.Some? ==> SettingsOf(kw).dropout == kw.dropout.value
    ensures kw.batchSize.Some? ==> SettingsOf(kw).batchSize == kw.batchSize.value
    ensures kw.rebalance.Some? ==> SettingsOf(kw).rebalance == kw.rebalance.value
    ensures kw.charGram.Some? ==> SettingsOf(kw).charGram == kw.charGram.value
    ensures kw.lstmHiddenDim.Some? ==> SettingsOf(kw).lstmHiddenDim == kw.lstmHiddenDim.value
    ensures kw.bidirectional.Some? ==> SettingsOf(kw).bidirectional == kw.bidirectional.value
    ensures kw.maxSentenceLength.Some? ==> SettingsOf(kw).maxSentenceLength == kw.maxSentenceLength.value
    ensures kw.maxWordLength.Some? ==> SettingsOf(kw).maxWordLength == kw.maxWordLength.value
    ensures kw.hostDevice.Some? ==> SettingsOf(kw).hostDevice == kw.hostDevice.value
    ensures kw.replace.Some? ==> SettingsOf(kw).replace == kw.replace.value
    ensures kw.patience.Some? ==> SettingsOf(kw).patience == kw.patience.value
    ensures SettingsOf(kw).wordEmbPath == kw.wordEmbPath && SettingsOf(kw).charEmbPath == kw.charEmbPath
  {
  }

  /** The defaults, all at once: calling with no arguments gives the documented model. */
  lemma DefaultSettings()
    ensures SettingsOf(NoKwargs) ==
      Settings(false, 300, 300, None, None, 0.001, true, 100, 0.0, 100, false, 3, 100, true, 100, 20, "cpu", [], 100)
  {
  }

  /** The settings never depend on `init_pretrained`. */
  lemma SettingsIgnorePretrained(kw: Kwargs, p: Pretrained)
    ensures SettingsOf(kw.(initPretrained := p)) == SettingsOf(kw)
  {
  }

  /** What `_init_kwargs` leaves: the settings, the stored `model_kwargs`, and the vocabulary. */
  datatype Initialised = Initialised(settings: Settings, stored: Kwargs, vocab: Vocab)

  /** `_init_kwargs(**kw)`: build the vocabulary from truthy `init_pretrained`
      splits (with both flags set `create_dict` cannot fail), read the settings,
      insist on both paths when embeddings are to be loaded, and drop
      `init_pretrained` from the stored arguments. */
  function InitKwargs(kw: Kwargs, v: Vocab): (r: Result<Initialised>)
    requires ValidVocab(v)
    ensures r.Ok? <==> !(SettingsOf(kw).loadEmb && (kw.wordEmbPath.None? || kw.charEmbPath.None?))
    ensures r.Err? ==> r.fault == AssertionError("")
    ensures r.Ok? ==> r.value.settings == SettingsOf(kw)
    ensures r.Ok? ==> r.value.stored.initPretrained == Absent
    ensures r.Ok? ==> r.value.stored.(initPretrained := kw.initPretrained) == kw
    ensures r.Ok? ==> ValidVocab(r.value.vocab)
    ensures r.Ok? && !kw.initPretrained.Given? ==> r.value.vocab == v
    ensures r.Ok? && kw.initPretrained.Given? ==>
      r.value.vocab == CreateDict(v, kw.initPretrained.splits, true, true).value
  {
    var vocab :=
      if kw.initPretrained.Given? then
        CreateDictBothSucceeds(v, kw.initPretrained.splits);
        CreateDict(v, kw.initPretrained.splits, true, true).value
      else v;
    var c := SettingsOf(kw);
    if c.loadEmb && c.wordEmbPath.None? then Err(AssertionError(""))
    else if c.loadEmb && c.charEmbPath.None? then Err(AssertionError(""))
    else Ok(Initialised(c, kw.(initPretrained := Absent), vocab))
  }

  /** Re-reading the stored arguments, as `load` does, gives the same settings
      and leaves whatever vocabulary the model has in place: the one-shot key is
      spent. */
  lemma InitKwargsStoredIsStable(kw: Kwargs, v: Vocab, v': Vocab)
    requires ValidVocab(v) && ValidVocab(v')
    requires InitKwargs(kw, v).Ok?
    ensures var first := InitKwargs(kw, v).value;
      && InitKwargs(first.stored, v').Ok?
      && InitKwargs(first.stored, v').value == Initialised(first.settings, first.stored, v')
  {
    var first := InitKwargs(kw, v).value;
    SettingsIgnorePretrained(kw, Absent);
    assert first.stored == kw.(initPretrained := Absent);
  }
}
