# Hierarchical word/char LSTM data preparation and CDR annotation resolution, in Dafny

This project models the deterministic logic around Snorkel's hierarchical
word/character LSTM relation extractor (`WCLSTM`) and the chemical-disease
(CDR) tutorial helpers that turn PubTator annotations into sentence-relative
mentions and same-sentence relation pairs. The neural networks, the floats
and the files are abstracted away; what remains follows the code branch for
branch, except for the two corrections listed under "Findings", which the
rest of the model builds on (see "Left out" for `TrainingSet` and
`LoadEmbeddings`):

- `Wrappers` — `Option`, `Result` and the Python exceptions the code raises.
- `PyStr` — the bits of Python string and path behaviour the code depends on:
  `str.replace` (including the empty pattern), `path.split(".")[-1]`,
  `os.path.join`, `' '.join`, `list(str)`.
- `SymbolTable` — the token-to-id table from the sibling `utils` module, which
  is not part of this model (see the assumption under "Left out").
- `Preprocess` — `_preprocess_data` (argument marking by cardinality,
  `<`/`>` wrapping, character n-grams, `get` versus `lookup`) and
  `_check_max_sentence_length`.
- `Vocabulary` — `create_dict` (with its two quirks, lines 96 and 110, kept as
  written) and `load_dict` (header skip for `.vec`, width check, ordered
  placeholder replacement, dev/test filter).
- `Embeddings` — the row-overwrite rule of `load_embeddings`, with the random
  initial rows taken as a parameter and vector values kept opaque.
- `Config` — `_init_kwargs`: every default, the `load_emb` path guard, and the
  one-shot `init_pretrained` key.
- `Persistence` — `save`/`load` against a store mapping paths to artifacts:
  the four-file layout under `save_dir/model_name/`, `only_param`, and the
  round trips.
- `Training` — the guards at the head of `train` (cardinality, non-negative
  marginals, selection of labelled rows) and the epoch / evaluate /
  checkpoint / early-stop / final-reload state machine, as a fold and as a
  loop that refines it.
- `Cdr` — `get_CD_mentions_by_MESHID` (sentence scan, negative index
  resolution, relative offsets, skipped `IndividualMention`s, last writer per
  MESH id) and `get_CID_relations` (missing ids skipped, same-sentence filter).

Python exceptions become `Err(fault)` values. Python's `sents[-1]` for an
annotation that starts before the first sentence is modelled, not excluded:
it resolves to the last sentence.

## Model

| member | source | states |
|---|---|---|
| SymbolTable.Empty | snorkel/contrib/wclstm/wclstm.py:34-35 | A fresh table holds nothing and hands out id 2 next. |
| SymbolTable.Get | snorkel/contrib/wclstm/wclstm.py:58 | `get` returns the token's id, inserting it under the next free id when absent and changing nothing when present. |
| SymbolTable.Lookup | snorkel/contrib/wclstm/wclstm.py:58 | `lookup` answers `unknown_symbol` (1) exactly for tokens the table does not hold, and the stored id otherwise. |
| SymbolTable.LookupStrict | snorkel/contrib/wclstm/wclstm.py:194-195 | `lookup_strict` gives an id exactly for held tokens, and that id is a row index below `s`. |
| SymbolTable.GetAll | snorkel/contrib/wclstm/wclstm.py:37 | Mapping `get` over tokens yields a table holding the old tokens plus exactly the given ones, keeping old ids, with one id per token. |
| SymbolTable.LookupAll | snorkel/contrib/wclstm/wclstm.py:59 | Mapping `lookup` gives 1 exactly at the unknown tokens and the stored id elsewhere. |
| SymbolTable.IdsDistinct | snorkel/contrib/wclstm/wclstm.py:194-195 | In a valid table no two tokens share an id, so each embedding row belongs to one token. |
| SymbolTable.GetIdempotent | snorkel/contrib/wclstm/wclstm.py:34-42 | Getting a token twice is the same as getting it once. |
| SymbolTable.LookupAfterGet | snorkel/contrib/wclstm/wclstm.py:58-62 | After `get`, `lookup` and `lookup_strict` return the id `get` gave. |
| SymbolTable.GetAllAppend | snorkel/contrib/wclstm/wclstm.py:46-70 | Getting two token lists in turn is getting their concatenation. |
| SymbolTable.GetAllKnown | snorkel/contrib/wclstm/wclstm.py:58-62 | On tokens already held, `get` changes nothing and agrees with `lookup`. |
| PyStr.InsertEverywhere | snorkel/contrib/wclstm/wclstm.py:144 | Replacing the empty pattern in an `n`-character word adds the replacement `n + 1` times to its length. |
| PyStr.Replace | snorkel/contrib/wclstm/wclstm.py:144 | `str.replace` with a non-empty placeholder as long as its replacement keeps the word's length; the empty-pattern, identity and absent-pattern cases are the lemmas around it. |
| PyStr.InsertNothing | snorkel/contrib/wclstm/wclstm.py:144 | Replacing the empty pattern by the empty string leaves the word alone. |
| PyStr.ReplaceBySelf | snorkel/contrib/wclstm/wclstm.py:144 | Replacing a pattern by itself leaves the word unchanged. |
| PyStr.ReplaceAbsent | snorkel/contrib/wclstm/wclstm.py:144 | Replacing a non-empty pattern that does not occur leaves the word unchanged. |
| PyStr.ApplyReplacementsAppend | snorkel/contrib/wclstm/wclstm.py:143-144 | The replacements are applied one after another, in table order. |
| PyStr.ApplyReplacements | snorkel/contrib/wclstm/wclstm.py:143-144 | A placeholder table whose entries are non-empty and as long as their replacements keeps every token's length. |
| PyStr.ApplyIdentityTable | snorkel/contrib/wclstm/wclstm.py:143-144 | A table mapping every key to itself leaves every token unchanged. |
| PyStr.LastDotField | snorkel/contrib/wclstm/wclstm.py:132 | `split(".")[-1]` is a dot-free suffix of the path, preceded by a dot unless it is the whole path. |
| PyStr.Join | snorkel/contrib/wclstm/wclstm.py:522 | `os.path.join` ends with its second part, and an absolute second part replaces the first. |
| PyStr.JoinInjective | snorkel/contrib/wclstm/wclstm.py:522 | Distinct relative names under one directory give distinct paths. |
| PyStr.Characters | snorkel/contrib/wclstm/wclstm.py:102 | Definition (its ensures restates the body): `list(s)`, one one-character string per character, in order; `Vocabulary.TrainTables` and `Vocabulary.TestSets` state its use for the char sets. |
| PyStr.SpaceJoin | snorkel/contrib/wclstm/wclstm.py:102 | Definition (its ensures restates the body): `' '.join(ws)`; `PyStr.SpaceJoinMembers` states which characters the joined text holds. |
| PyStr.SpaceJoinMembers | snorkel/contrib/wclstm/wclstm.py:102 | The joined text holds exactly the tokens' characters, plus the blank once two tokens are joined: this is what `list(' '.join(words))` feeds the char table. |
| Preprocess.ArgMarks | snorkel/contrib/wclstm/wclstm.py:48-54 | A binary candidate yields both argument triples numbered 1 and 2 in order; any other yields only the first, numbered 1. |
| Preprocess.CharGrams | snorkel/contrib/wclstm/wclstm.py:64-69 | A token yields `max(0, len+3-k)` n-grams, the i-th being the k characters of the wrapped token starting at i. |
| Preprocess.CharGramsRoundTrip | snorkel/contrib/wclstm/wclstm.py:64-69 | For `1 <= k <= len+2` the n-grams overlap so that they spell the wrapped token back. |
| Preprocess.MapTokens | snorkel/contrib/wclstm/wclstm.py:58-59 | One id per token, each the table's answer for it; `extend` leaves the table holding exactly its old tokens and the given ones, lookup mode leaves it untouched. |
| Preprocess.MapCharGrams | snorkel/contrib/wclstm/wclstm.py:62-69 | One id list per token, each the ids of that token's n-grams; `extend` leaves the table holding exactly its old grams and the sentence's grams, lookup mode changes nothing. |
| Preprocess.InGramsCons | snorkel/contrib/wclstm/wclstm.py:64-69 | A gram of a sentence is a gram of its first token or of the rest. |
| Preprocess.GramKeysStep | snorkel/contrib/wclstm/wclstm.py:62-69 | Extending by the first token's grams and then by the rest's adds exactly the sentence's grams. |
| Preprocess.EncodeFrom | snorkel/contrib/wclstm/wclstm.py:44-70 | One word-id sequence and one char-id list per candidate, in input order, each matching the candidate's marked tokens; `extend` leaves the word table holding exactly its old tokens and every marked token, the char table its old grams and every marked token's grams. |
| Preprocess.InCandsCons | snorkel/contrib/wclstm/wclstm.py:44-70 | A marked token (or gram) of a list of candidates is one of the first candidate's or of the rest's. |
| Preprocess.EncodeKeysStep | snorkel/contrib/wclstm/wclstm.py:44-70 | Encoding the first candidate and then the rest adds exactly the candidates' marked tokens and grams. |
| Preprocess.SeededWordTable | snorkel/contrib/wclstm/wclstm.py:34-37 | A fresh word table holds exactly the four padding markers. |
| Preprocess.SeededCharTable | snorkel/contrib/wclstm/wclstm.py:39-42 | A fresh char table holds exactly `<` and `>`. |
| Preprocess.PreprocessData | snorkel/contrib/wclstm/wclstm.py:28-71 | Tables only grow (seeded when missing); lookup mode leaves an existing table unchanged and a missing one exactly seeded; every candidate is encoded through the resulting tables. |
| Preprocess.OrSeeded | snorkel/contrib/wclstm/wclstm.py:34-42 | Definition (its ensures restates the body): the model's table when it has one, a freshly seeded one otherwise; `Preprocess.OrSeededKeys`, `Preprocess.PreprocessWordKeys` and `Preprocess.PreprocessCharKeys` state its keys. |
| Preprocess.OrSeededKeys | snorkel/contrib/wclstm/wclstm.py:34-42 | The table used holds the model's tokens, or exactly the markers when it is fresh. |
| Preprocess.PreprocessWordKeys | snorkel/contrib/wclstm/wclstm.py:34-59 | When extending, the word table ends with exactly its old tokens (the four paddings if fresh) plus every marked token of the candidates. |
| Preprocess.PreprocessCharKeys | snorkel/contrib/wclstm/wclstm.py:39-69 | When extending, the char table ends with exactly its old grams (`<` and `>` if fresh) plus every n-gram of the marked tokens. |
| Preprocess.LookupModeIds | snorkel/contrib/wclstm/wclstm.py:58-59 | In lookup mode each token id is 1 exactly when the token is unknown. |
| Preprocess.EffectiveLimit | snorkel/contrib/wclstm/wclstm.py:75 | Definition (no contract): `max_len or max_sentence_length`, where a missing or zero `max_len` falls back to the setting; `Preprocess.CheckMaxSentenceLength` states what it decides. |
| Preprocess.CheckMaxSentenceLength | snorkel/contrib/wclstm/wclstm.py:73-80 | Exactly the indices whose argument end reaches `max_len or max_sentence_length` are flagged, in increasing order. |
| Vocabulary.InWordsCons | snorkel/contrib/wclstm/wclstm.py:99-101 | A token occurs in a list of candidates iff it is in the first or in the rest. |
| Vocabulary.InCharsCons | snorkel/contrib/wclstm/wclstm.py:99-102 | A character occurs in the joined text of a list of candidates iff it is in the first's or in the rest's. |
| Vocabulary.TrainTables | snorkel/contrib/wclstm/wclstm.py:98-102 | The training pass adds exactly the train tokens (and their characters) to the enabled tables, keeping old ids. |
| Vocabulary.TestSets | snorkel/contrib/wclstm/wclstm.py:104-111 | The dev/test pass collects tokens and characters, both under the word flag, and fails on a missing char set. |
| Vocabulary.CreateDict | snorkel/contrib/wclstm/wclstm.py:82-114 | The word table is the paddings plus train tokens, the char table exactly the train characters (no markers), the dev/test sets exactly their tokens and characters; disabled parts are kept, except that under `word` alone the dev/test characters are added to an existing char set, and the char set is reset to empty under `char` alone. |
| Vocabulary.CreateDictBothSucceeds | snorkel/contrib/wclstm/wclstm.py:252 | With both flags set, building the vocabulary cannot fail. |
| Vocabulary.DataLines | snorkel/contrib/wclstm/wclstm.py:137-138 | A `.vec` file loses exactly its first line; any other file keeps all lines. |
| Vocabulary.IsFastText | snorkel/contrib/wclstm/wclstm.py:132 | Definition (no contract): the file is read as fastText exactly when the last dot-field of its path is `vec`; `PyStr.LastDotField` states what that field is. |
| Vocabulary.Collect | snorkel/contrib/wclstm/wclstm.py:137-149 | The pass fails iff some line has the wrong field count; otherwise the collected list is, in file order, the replaced token of every line whose token is in the dev/test set, a token is collected iff it is such a token, and `n` counts the collected lines. |
| Vocabulary.KeptTokensCons | snorkel/contrib/wclstm/wclstm.py:137-149 | The kept tokens of a file are those of its first line followed by those of the rest, so the pass can be read front to back. |
| Vocabulary.Seed | snorkel/contrib/wclstm/wclstm.py:118-128 | A missing table is created and the paddings are added to it, keeping every old id; afterwards it holds exactly its old tokens and the paddings. |
| Vocabulary.Grow | snorkel/contrib/wclstm/wclstm.py:118-149 | A seeded table grown by the collected pretrained tokens holds exactly its old tokens, the paddings and those tokens, old ids unchanged. |
| Vocabulary.Grown | snorkel/contrib/wclstm/wclstm.py:118-171 | After both tables are seeded and grown, both exist, still satisfy the table invariant, keep every old id, and the dev/test sets are untouched. |
| Vocabulary.LoadDict | snorkel/contrib/wclstm/wclstm.py:116-172 | The load fails iff a word or char line has the wrong width; on success tables only grow, the dev/test sets are untouched, and the coverage count is at most the number of word data lines (0 with no dev/test set). |
| Vocabulary.LoadDictCovered | snorkel/contrib/wclstm/wclstm.py:137-153 | The coverage count `n` is exactly the number of word data lines whose replaced token is in the dev/test vocabulary. |
| Vocabulary.LoadDictKeys | snorkel/contrib/wclstm/wclstm.py:125-171 | When every word and char line has the right width the load succeeds, and afterwards each table holds exactly its old tokens, the paddings, and the pretrained tokens that are in its dev/test set. |
| Vocabulary.LoadDictAsWritten | snorkel/contrib/wclstm/wclstm.py:150-153 | As written, the coverage report fails whenever the dev/test vocabulary is empty and otherwise agrees with the corrected load. |
| Vocabulary.EmptyDevVocabularyFails | snorkel/contrib/wclstm/wclstm.py:150-153 | For every vocabulary and file pair: with an empty dev/test vocabulary and well-formed files the as-written load raises ZeroDivisionError while the corrected load succeeds. |
| Vocabulary.EmptyDevVocabularyCrashes | snorkel/contrib/wclstm/wclstm.py:150-153 | An empty dev/test vocabulary with a file `emb.txt` holding one well-formed line, whatever its token and value, crashes the as-written load but not the corrected one. |
| Vocabulary.OneLineTxtFile | snorkel/contrib/wclstm/wclstm.py:132-138 | A `.txt` path is not fastText, so its first line is data, and a one-value line is well formed for dimension 1. |
| Embeddings.ValueFields | snorkel/contrib/wclstm/wclstm.py:196 | `line[-dim:]` is the line without its token when `dim > 0`. |
| Embeddings.Target | snorkel/contrib/wclstm/wclstm.py:192-195 | A line writes a row exactly when its replaced token is known, and that row is the token's id. |
| Embeddings.InitMatrix | snorkel/contrib/wclstm/wclstm.py:178-181 | Definition (its ensures restates the body): one row per id, row `i` drawn as `init(i)`; `Embeddings.Overwrite` and `Embeddings.LoadEmbeddings` state which rows keep their initial value. |
| Embeddings.Overwrite | snorkel/contrib/wclstm/wclstm.py:187-209 | The pass fails iff some line has the wrong width; otherwise unwritten rows keep their value and each written row holds the last writer's values. |
| Embeddings.LoadEmbeddings | snorkel/contrib/wclstm/wclstm.py:174-210 | Succeeds iff the corrected `load_dict` does, with its vocabulary and count, `s` rows per matrix, and the row rule on both files. |
| Embeddings.LoadEmbeddingsAsWritten | snorkel/contrib/wclstm/wclstm.py:174-176 | As written, `load_embeddings` fails exactly when the as-written `load_dict` does, so always on an empty dev/test vocabulary, and otherwise is the load above. |
| Config.GetOr | snorkel/contrib/wclstm/wclstm.py:255 | Definition (its ensures restates the body): `kwargs.get(key, default)`; `Config.SettingsKeepGiven` and `Config.DefaultSettings` state its use for every key. |
| Config.SettingsOf | snorkel/contrib/wclstm/wclstm.py:255-307 | Each missing key falls back to its documented default; paths default to `None`. |
| Config.SettingsKeepGiven | snorkel/contrib/wclstm/wclstm.py:255-307 | Every one of the seventeen keys the caller passes is read back unchanged, and both embedding paths are kept as given. |
| Config.DefaultSettings | snorkel/contrib/wclstm/wclstm.py:255-307 | With no arguments the settings are exactly the documented defaults. |
| Config.SettingsIgnorePretrained | snorkel/contrib/wclstm/wclstm.py:251-307 | The settings do not depend on `init_pretrained`. |
| Config.InitKwargs | snorkel/contrib/wclstm/wclstm.py:247-334 | Fails (AssertionError) iff embeddings are to be loaded without both paths; otherwise stores the arguments minus `init_pretrained` and rebuilds the vocabulary only for truthy splits. |
| Config.InitKwargsStoredIsStable | snorkel/contrib/wclstm/wclstm.py:333-334 | Re-initialising from the stored arguments gives the same settings and leaves the vocabulary alone. |
| Persistence.NameOf | snorkel/contrib/wclstm/wclstm.py:519 | `model_name or self.name` is a non-empty name, the given one when it is non-empty. |
| Persistence.PathsDistinct | snorkel/contrib/wclstm/wclstm.py:528-542 | The four artifact files of one directory are at four distinct paths. |
| Persistence.ConfigFilesDiffer | snorkel/contrib/wclstm/wclstm.py:528-538 | The kwargs file and the dicts file are different paths. |
| Persistence.NetFilesDiffer | snorkel/contrib/wclstm/wclstm.py:541-542 | The word and char network files are different paths. |
| Persistence.PickleIsNoNetFile | snorkel/contrib/wclstm/wclstm.py:528-542 | Neither pickle file can be mistaken for a network file. |
| Persistence.NamesDoNotCollide | snorkel/contrib/wclstm/wclstm.py:521-542 | Distinct slash-free model names under one save directory get distinct directories, and their kwargs, dicts and two network files are pairwise different paths. |
| Persistence.FilesApart | snorkel/contrib/wclstm/wclstm.py:521-542 | A relative file under one model directory is never a file under another model directory of the same save directory. |
| Persistence.UnderName | snorkel/contrib/wclstm/wclstm.py:521-542 | A file under a name under a directory is the directory's prefix followed by `name/file`. |
| Persistence.SlashAfterName | snorkel/contrib/wclstm/wclstm.py:521-522 | Two distinct slash-free names, each followed by a slash, never give the same path tail. |
| Persistence.DictsOf | snorkel/contrib/wclstm/wclstm.py:531-539 | The dicts file holds both tables, and the two matrices exactly when `load_emb` is set; a missing attribute fails. |
| Persistence.SaveConfig | snorkel/contrib/wclstm/wclstm.py:526-539 | Definition (its ensures restates the body): the kwargs file and the dicts file written; `Persistence.SaveWritesConfig`, `Persistence.SaveFrame` and `Persistence.SaveLoadRoundTrip` state its use. |
| Persistence.SaveNets | snorkel/contrib/wclstm/wclstm.py:541-542 | Definition (its ensures restates the body): both networks written under `<name>_word_model` and `<name>_char_model`; `Persistence.SaveWritesNets`, `Persistence.SaveFrame` and `Persistence.ParamRoundTrip` state its use. |
| Persistence.Save | snorkel/contrib/wclstm/wclstm.py:517-545 | Saving succeeds iff both networks exist and, unless `only_param`, the tables do. |
| Persistence.SaveWritesNets | snorkel/contrib/wclstm/wclstm.py:541-542 | After any save the two network files hold the model's networks. |
| Persistence.SaveWritesConfig | snorkel/contrib/wclstm/wclstm.py:526-539 | After a full save the kwargs file holds the stored arguments and the dicts file the tables (and matrices under `load_emb`). |
| Persistence.SaveFrame | snorkel/contrib/wclstm/wclstm.py:526-542 | A save changes no other path; an `only_param` save adds nothing but the two network files. |
| Persistence.ReadNet | snorkel/contrib/wclstm/wclstm.py:573-574 | Definition (its ensures restates the body): `torch.load` of a network file, IOError when missing; `Persistence.SaveLoadRoundTrip` and `Persistence.ParamRoundTrip` state that it reads back what a save wrote. |
| Persistence.LoadNets | snorkel/contrib/wclstm/wclstm.py:573-574 | Definition (its ensures restates the body): both networks replaced by what the files hold; `Persistence.ParamRoundTrip` states that it restores the saved networks. |
| Persistence.Rebuild | snorkel/contrib/wclstm/wclstm.py:558-571 | The tables come from the dicts file, the matrices too under `load_emb` (a file without them fails on `char_emb`), and the networks are untouched. |
| Persistence.LoadConfig | snorkel/contrib/wclstm/wclstm.py:552-571 | A full load re-runs `_init_kwargs` on the stored arguments and restores the tables (and matrices when `load_emb`); missing files fail. |
| Persistence.Load | snorkel/contrib/wclstm/wclstm.py:547-577 | An `only_param` load touches only the networks; a full load is the config load followed by the network load. |
| Persistence.SaveLoadRoundTrip | snorkel/contrib/wclstm/wclstm.py:517-574 | A full save followed by a full load restores the saved model's settings, tables, matrices and networks. |
| Persistence.ParamRoundTrip | snorkel/contrib/wclstm/wclstm.py:541-542 | An `only_param` save and load carry over the two networks and nothing else. |
| Training.CheckCardinality | snorkel/contrib/wclstm/wclstm.py:358-362 | Training proceeds iff the target cardinality (columns, or 2 for 1-D) equals the model's; otherwise a ValueError. |
| Training.CheckCardinalityAsWritten | snorkel/contrib/wclstm/wclstm.py:358-362 | As written, a mismatch on 1-D targets raises IndexError instead, while the pass/fail verdict is unchanged. |
| Training.BinaryMismatchRaisesIndexError | snorkel/contrib/wclstm/wclstm.py:358-362 | 1-D targets given to a three-class model raise IndexError as written and ValueError as intended. |
| Training.TargetCardinality | snorkel/contrib/wclstm/wclstm.py:358 | Definition (no contract): the number of columns, or 2 for 1-D targets; `Training.CheckCardinality` states its use. |
| Training.RowMax | snorkel/contrib/wclstm/wclstm.py:377 | The row maximum bounds every entry and is one of them. |
| Training.RowMin | snorkel/contrib/wclstm/wclstm.py:377 | The row minimum bounds every entry from below and is one of them. |
| Training.LabelledIffEntriesDiffer | snorkel/contrib/wclstm/wclstm.py:377-378 | A row is kept iff two of its entries differ by more than `1e-6`. |
| Training.LabelledRows | snorkel/contrib/wclstm/wclstm.py:377-378 | The kept indices are exactly the labelled rows, strictly increasing. |
| Training.LabelledRowsExample | snorkel/contrib/wclstm/wclstm.py:377-378 | A constant row is dropped and a decided row kept. |
| Training.Pick | snorkel/contrib/wclstm/wclstm.py:379 | Definition (its ensures restates the body): `xs[idxs]`, an IndexError on an out-of-range index; `Training.PickTargets` and `Training.TrainingSet` state its use. |
| Training.Count | snorkel/contrib/wclstm/wclstm.py:379-381 | Definition (no contract): the number of candidates the targets cover, their first dimension; `Training.PickTargets` states its use. |
| Training.PickTargets | snorkel/contrib/wclstm/wclstm.py:381 | Selecting target rows fails iff an index is past the number of candidates, keeps the array's kind and width, and yields exactly the rows at the given indices, in order. |
| Training.TrainIdxs | snorkel/contrib/wclstm/wclstm.py:371-378 | A binary model uses the balancer's indices; otherwise exactly the labelled rows, with numpy's errors for 1-D arrays and for zero-width arrays, even those without rows (the maximum is over an empty axis). |
| Training.TrainingSet | snorkel/contrib/wclstm/wclstm.py:358-381 | Fails on a cardinality mismatch, then on a negative entry; otherwise the candidates and the targets are both those at the selected indices. |
| Training.EmptyZeroWidthTargetsFail | snorkel/contrib/wclstm/wclstm.py:358-378 | An empty zero-width target array passes the cardinality check of a cardinality-0 model and still fails, at the row maximum. |
| Training.Evaluates | snorkel/contrib/wclstm/wclstm.py:449 | Definition (no contract): an epoch reports and scores the dev set when `print_freq` divides `idx + 1` or it is the last epoch, `verbose` being `print_freq > 0`. |
| Training.Eligible | snorkel/contrib/wclstm/wclstm.py:458 | Definition (no contract): an epoch may checkpoint when it evaluates, a dev set was given, `dev_ckpt` is on and `idx > dev_ckpt_delay * n_epochs`. |
| Training.Halts | snorkel/contrib/wclstm/wclstm.py:463 | Definition (no contract): the break test `idx - last_epoch_opt > patience`, on an evaluating epoch with `dev_ckpt` on and past the delay; `Training.StepHaltsIff` ties it to the loop. |
| Training.Step | snorkel/contrib/wclstm/wclstm.py:443-465 | Definition (no contract): one epoch of the loop body; `Training.StepSound` and `Training.StepHaltsIff` state what it keeps and when it breaks. |
| Training.RecordIffImproves | snorkel/contrib/wclstm/wclstm.py:458 | Under the loop invariant, an epoch checkpoints iff it is eligible and beats the best score so far. |
| Training.StepSound | snorkel/contrib/wclstm/wclstm.py:442-465 | One epoch keeps the invariant: checkpoints are exactly the record epochs so far and the files hold the last one's networks. |
| Training.Run | snorkel/contrib/wclstm/wclstm.py:442-465 | The loop runs at most `n_epochs` epochs, all of them unless it breaks, and it breaks only when `idx - last_epoch_opt > patience` past the delay (that it breaks exactly at the first such epoch is `Training.RunHaltsIff`). |
| Training.RunSound | snorkel/contrib/wclstm/wclstm.py:442-465 | After any number of epochs, broken or not, the checkpoints are exactly the record epochs run so far in order, `dev_score_opt` is the last checkpoint's score and bounds every eligible score, and the checkpoint files hold that epoch's networks. |
| Training.CheckpointsImprove | snorkel/contrib/wclstm/wclstm.py:458-461 | Checkpoints are eligible evaluation epochs, in increasing order, with strictly increasing dev scores. |
| Training.LastCheckpointIsLastRecord | snorkel/contrib/wclstm/wclstm.py:458-461 | The last checkpoint taken by epoch `top` is the last record epoch so far, and there is one iff some epoch was a record. |
| Training.StepHaltsIff | snorkel/contrib/wclstm/wclstm.py:463-465 | An epoch breaks the loop exactly when its early-stopping test holds, stated over the dev scores alone: the last record epoch is more than `patience` epochs back, on an evaluation epoch past the delay with checkpointing on. |
| Training.RunHaltsIff | snorkel/contrib/wclstm/wclstm.py:442-465 | The loop breaks exactly at the first epoch whose early-stopping test holds, and runs all epochs when none does. |
| Training.RunBreaksIff | snorkel/contrib/wclstm/wclstm.py:442-465 | The loop breaks iff some epoch's test holds, and then at the earliest such epoch. |
| Training.HaltsExtend | snorkel/contrib/wclstm/wclstm.py:442-465 | The break-at-the-first-test property carries from `n-1` epochs to `n`. |
| Training.RunStepHalts | snorkel/contrib/wclstm/wclstm.py:442-465 | An epoch run after a loop that has not broken breaks it exactly when its test holds. |
| Training.PatienceExample | snorkel/contrib/wclstm/wclstm.py:458-465 | Ten evaluated epochs with patience 2 and a dev score peaking at epoch 1 break after epoch 4, five epochs in. |
| Training.OnlyRecordIsOne | snorkel/contrib/wclstm/wclstm.py:458 | In that example epoch 1 is the only epoch that improves on the best dev score. |
| Training.TrainLoop | snorkel/contrib/wclstm/wclstm.py:442-473 | The final param-only reload happens iff `dev_ckpt`, a dev set, `print_freq > 0` and some checkpoint (best score above 0), and it restores the last checkpoint's networks. |
| Training.FinalState | snorkel/contrib/wclstm/wclstm.py:442-473 | After the loop the closing reload is due exactly when a checkpoint was taken under `dev_ckpt`, a dev set and `verbose`; the files then hold that checkpoint's networks, and the model keeps its vocabulary. |
| Training.NoDevNoCheckpoint | snorkel/contrib/wclstm/wclstm.py:458-473 | Without a dev set, checkpointing or evaluation no checkpoint is taken and no reload happens. |
| Training.RunEpochs | snorkel/contrib/wclstm/wclstm.py:442-465 | The imperative loop with its `break` computes the same state as the fold. |
| Training.RunStaysHalted | snorkel/contrib/wclstm/wclstm.py:463-465 | Once the loop has broken, further epochs change nothing. |
| Training.Reloads | snorkel/contrib/wclstm/wclstm.py:472 | Definition (no contract): the final reload condition `dev_ckpt and X_dev is not None and verbose and dev_score_opt > 0`; `Training.TrainLoop` states when it holds and what it restores. |
| Cdr.ScanFrom | tutorial/utils.py:37-44 | The scan stops at a start equal to the offset or just before the first start past it, and falls through to the last sentence. |
| Cdr.SentenceIndex | tutorial/utils.py:37-44 | The index is -1 iff there are no sentences or the offset precedes the first start, and otherwise names a start at or before the offset. |
| Cdr.SentenceIndexIsLastStartBefore | tutorial/utils.py:37-44 | With increasing starts and the offset not before the first, the index is the last sentence starting at or before the offset. |
| Cdr.Resolve | tutorial/utils.py:45 | `sents[si]` with Python's negative index: -1 is the last sentence, and no sentences is an IndexError. |
| Cdr.MentionOf | tutorial/utils.py:45-47 | The mention is sentence-relative with `char_end - char_start + 1 == length`; an offset not before the first start lands in the sentence the scan picks, at a non-negative start, and an early offset lands in the last sentence. |
| Cdr.MentionInLastStartBefore | tutorial/utils.py:37-47 | With sentences starting in rising order and the offset not before the first, the mention lies in the last sentence starting at or before the offset, at a non-negative start. |
| Cdr.EarlyOffsetWrapsToLastSentence | tutorial/utils.py:43-46 | An offset before the first sentence gives a negative start in the last sentence. |
| Cdr.Mentions | tutorial/utils.py:11-51 | Keys are exactly the MESH ids of kept annotations, each mapped to its last annotation's mention; no sentences with a kept annotation is an IndexError. |
| Cdr.MentionsStep | tutorial/utils.py:50 | A new annotation overwrites only its own MESH id and leaves every other key unchanged. |
| Cdr.KeptOnly | tutorial/utils.py:24-27 | Filtering drops `IndividualMention` annotations. |
| Cdr.KeptOnlyAppend | tutorial/utils.py:24-27 | Filtering keeps the order of the annotations it keeps. |
| Cdr.MentionsIgnoreSkipped | tutorial/utils.py:24-27 | `IndividualMention` annotations contribute nothing to the result. |
| Cdr.CidPairs | tutorial/utils.py:63-72 | Every pair yielded is two mentions of one sentence found under some relation's ids, and every relation whose two ids are mentioned in one sentence yields its pair. |
| Cdr.CidPairsAppend | tutorial/utils.py:63-72 | Pairs come out in relation order. |
| Cdr.CidPairsKeepsKept | tutorial/utils.py:63-72 | A relation whose two ids are mentioned in one sentence yields exactly its pair; with `Cdr.CidPairsAppend` and the empty case of `Cdr.CidPairs` this fixes the output as the in-order filter of the relations. |
| Cdr.CidPairsSkipsMissing | tutorial/utils.py:64-68 | A relation naming an unknown MESH id is skipped silently. |
| Cdr.CidRelations | tutorial/utils.py:54-72 | Definition (its ensures restates the body): the mentions of the document, then their same-sentence relation pairs; `Cdr.Mentions` and the soundness and completeness clauses of `Cdr.CidPairs` state what it yields. |

## Left out

- Real file I/O, `pickle`, `torch.save`/`torch.load` and `os.makedirs`: files are entries of a map from paths to artifacts, and the directory creation is not modelled.
- Float parsing, the uniform random initialisation and the dev-set scoring: vector values are opaque strings, the initial rows are a parameter `init`, and dev scores are a sequence of reals given as input.
- The CharRNN/WordRNN networks, `train_model`, `_marginals_batch`, `pad_batch`, the optimiser and the loss (lines 212-245 and 475-515): numeric tensor code. A network is an opaque value and training one epoch yields the networks `nets(idx)` given as input.
- Random seeds and the GPU moves in `train` (lines 348-356, 429-431): no effect on the logic modelled.
- `print` output and the warning text of `_check_max_sentence_length`: the model returns the indices that are warned about.
- `LabelBalancer(...).get_train_idxs` (lines 373-374): its source is not part of this model; its result is an input `balanced`.
- `reshape_marginals` (line 364): its source is not part of this model; it is taken to leave the targets unchanged.
- The row-stochastic check for more than two classes (line 366): a floating-point tolerance test.
- `mark_sentence` and `candidate_to_tokens`: their source is not part of this model. The marking function is a parameter, and the tokens are a field of the candidate.
- SymbolTable: its source is not part of this model. Its behaviour is an assumption drawn from how the model uses it: ids 0 and 1 reserved, `get` hands out the next free id, `lookup` answers 1 on a miss, and `s` counts the ids.
- Attributes set before an exception is raised, the `hasattr` state after a failure, and files written before a failure are not modelled: a failing call yields only its error and leaves the store as it was. In the source a failing full save has already written `model_kwargs.pkl` and truncated `model_dicts.pkl` before the dict literal raises (lines 528-539), and a failing `only_param` save may already have written `<name>_word_model` (line 541).
- Keyword arguments other than the ones `_init_kwargs` reads are not modelled.
- `word_emb_dim`, `char_emb_dim`, `batch_size`, `char_gram`, `lstm_hidden_dim` and `max_word_length` are taken as non-negative integers, where Python accepts any int (a negative `char_gram`, say, still yields grams through `range(len(word) - char_gram + 1)`, lines 66-67).
- `self.name` is the class attribute `name = 'WCLSTM'` (line 18); an instance name set by the base class's constructor is not modelled, though it would change every checkpoint path (lines 458 and 519).
- In Python 2 `self.replace.keys()` iterates in dict order; the model takes the replacements as an ordered list.
- The text of the file lines is taken already stripped and split on blanks.
- An artifact of the wrong kind at a path (say, a network where the kwargs belong) is taken to raise a TypeError; unpickling arbitrary objects is not modelled.
- The XML parsing of `get_docs_xml` and the `xpath` queries: annotations and relations are given as already-extracted records. A relation element lacking its Chemical or Disease infon, which raises an uncaught IndexError at `[0]` in the source (`tutorial/utils.py` lines 65-66, where only KeyError is caught), cannot be expressed: every `Relation` record carries both ids.
- Training.CheckCardinality: the error message's numbers are not formatted; every mismatch carries the same message constant.
- Training.TrainingSet: it applies the corrected `Training.CheckCardinality`, so 1-D targets given to a model whose cardinality is not 2 fail with the intended ValueError; as written, formatting the message reads `Y_train.shape[1]`, and the one-element shape tuple raises Python's IndexError instead (line 361, see Findings).
- Embeddings.LoadEmbeddings: it composes the corrected `Vocabulary.LoadDict`, so an empty dev/test vocabulary loads; the source's `load_embeddings` calls `load_dict` as written (line 176) and fails there with ZeroDivisionError, which `Embeddings.LoadEmbeddingsAsWritten` models.
- Python 2 reads both embedding files as byte strings (lines 131-147 and 158-169), while the dev/test sets are built from the corpus tokens. The model compares both as sequences of characters, so it assumes file tokens and corpus tokens are the same kind of string. With unicode corpus tokens, a non-ASCII token in the file would never match, and a UTF-8 char line would never equal a one-code-point character.
- Persistence.Save: its own contract states only when it succeeds; what it writes is stated by `Persistence.SaveWritesNets`, `Persistence.SaveWritesConfig` and `Persistence.SaveFrame`.
- Preprocess.PreprocessData: the numpy array wrapping of the result is not modelled; the result is nested sequences.

## Findings

| source | as written | input that shows it | evidently intended | confidence | as-written member | corrected member |
|---|---|---|---|---|---|---|
| snorkel/contrib/wclstm/wclstm.py:358-362 | The mismatch message formats `Y_train.shape[1]`, which does not exist for 1-D targets, so an IndexError replaces the intended ValueError. | 1-D marginals `[0.5]` for a model of cardinality 3 | A ValueError reporting the cardinality mismatch | not executed | Training.CheckCardinalityAsWritten (shown by Training.BinaryMismatchRaisesIndexError) | Training.CheckCardinality |
| snorkel/contrib/wclstm/wclstm.py:150-153 | The coverage report divides by `len(word_dict_all)`, which raises ZeroDivisionError when the dev/test vocabulary is empty. | Empty dev/test sets and an embedding file `emb.txt` with one line such as `the 0.1`, dimension 1 | The load succeeds and only the report is skipped | not executed | Vocabulary.LoadDictAsWritten (shown by Vocabulary.EmptyDevVocabularyFails and Vocabulary.EmptyDevVocabularyCrashes) | Vocabulary.LoadDict |
