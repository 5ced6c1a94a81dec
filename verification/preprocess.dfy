/** `WCLSTM._preprocess_data` and `WCLSTM._check_max_sentence_length`:
    candidates become marked token sequences, every token becomes a list of
    character n-grams of its `<`/`>`-wrapped form, and both are mapped to ids
    through the word and char symbol tables. */
module Preprocess {
  import opened Wrappers
  import opened SymbolTable

  /** The word span of one argument mention (`get_word_start()`, `get_word_end()`). */
  datatype Span = Span(wordStart: int, wordEnd: int)

  /** A candidate: the tokens of its parent sentence (what `candidate_to_tokens`
      yields) and its argument mentions (`len(candidate)` of them). */
  datatype Candidate = Candidate(words: seq<string>, args: seq<Span>)

  /** One `(word_start, word_end, argument_index)` triple handed to `mark_sentence`. */
  datatype ArgMark = ArgMark(start: int, end: int, index: nat)

  /** The signature of `mark_sentence`, which is not part of this model: the
      preprocessing is stated for every marking function. */
  type Marker = (seq<string>, seq<ArgMark>) -> seq<string>

  /** The word paddings seeded into a fresh word table. */
  const WordMarkers: seq<string> := ["~~[[1", "1]]~~", "~~[[2", "2]]~~"]

  /** `char_marker`: the two characters wrapped around every token. */
  const CharMarkers: seq<string> := ["<", ">"]

  /** Every candidate names at least one argument (the collaborator contract:
      candidates are unary or binary). */
  predicate WellFormed(c: Candidate) {
    |c.args| >= 1
  }

  /** The argument triples chosen by cardinality: both arguments, numbered 1 and 2,
      for a binary candidate; only the first, numbered 1, otherwise. */
  function ArgMarks(c: Candidate): (r: seq<ArgMark>)
    requires WellFormed(c)
    ensures |r| == if |c.args| == 2 then 2 else 1
    ensures forall i :: 0 <= i < |r| ==>
      r[i] == ArgMark(c.args[i].wordStart, c.args[i].wordEnd, i + 1)
  {
    if |c.args| == 2 then
      [ArgMark(c.args[0].wordStart, c.args[0].wordEnd, 1),
       ArgMark(c.args[1].wordStart, c.args[1].wordEnd, 2)]
    else
      [ArgMark(c.args[0].wordStart, c.args[0].wordEnd, 1)]
  }

  /** The marked token sequence of a candidate. */
  function Marked(c: Candidate, mark: Marker): seq<string>
    requires WellFormed(c)
  {
    mark(c.words, ArgMarks(c))
  }

  /** The token wrapped in the char markers. */
  function Wrap(w: string): string {
    "<" + w + ">"
  }

  /** The overlapping `k`-grams of the wrapped token, left to right
      (`range(len(word) - k + 1)` is empty once `k` exceeds the wrapped length). */
  function CharGrams(w: string, k: nat): (r: seq<string>)
    ensures |r| == if |w| + 3 > k then |w| + 3 - k else 0
    ensures forall i :: 0 <= i < |r| ==> |r[i]| == k && r[i] == Wrap(w)[i..i + k]
  {
    var word := Wrap(w);
    var n := if |word| + 1 > k then |word| + 1 - k else 0;
    seq(n, i requires 0 <= i < n => word[i..i + k])
  }

  /** Glues overlapping grams back together: the first character of every gram
      but the last, then the whole last gram. */
  function Unslice(grams: seq<string>): string
    requires forall i :: 0 <= i < |grams| ==> |grams[i]| >= 1
  {
    if |grams| == 0 then ""
    else if |grams| == 1 then grams[0]
    else grams[0][..1] + Unslice(grams[1..])
  }

  /** The `k`-grams of `s` starting at positions `i`, `i + 1`, ..., `|s| - k`. */
  function GramsFrom(s: string, k: nat, i: nat): (r: seq<string>)
    requires i + k <= |s|
    ensures |r| == |s| - k + 1 - i
    ensures forall j :: 0 <= j < |r| ==> r[j] == s[i + j..i + j + k]
  {
    seq(|s| - k + 1 - i, j requires 0 <= j < |s| - k + 1 - i => s[i + j..i + j + k])
  }

  /** The grams from position `i` on glue back to the suffix `s[i..]`. */
  lemma {:induction false} UnsliceSuffix(s: string, k: nat, i: nat)
    requires 1 <= k && i + k <= |s|
    ensures Unslice(GramsFrom(s, k, i)) == s[i..]
    decreases |s| - i
  {
    var g := GramsFrom(s, k, i);
    if |g| == 1 {
      assert g[0] == s[i..];
    } else {
      UnsliceSuffix(s, k, i + 1);
      assert g[1..] == GramsFrom(s, k, i + 1);
      assert g[0][..1] == s[i..i + 1];
      assert s[i..i + 1] + s[i + 1..] == s[i..];
    }
  }

  /** Round trip: whenever at least one gram fits, the grams glue back to the wrapped token. */
  lemma CharGramsRoundTrip(w: string, k: nat)
    requires 1 <= k <= |w| + 2
    ensures forall i :: 0 <= i < |CharGrams(w, k)| ==> |CharGrams(w, k)[i]| >= 1
    ensures Unslice(CharGrams(w, k)) == Wrap(w)
  {
    var s := Wrap(w);
    UnsliceSuffix(s, k, 0);
    assert CharGrams(w, k) == GramsFrom(s, k, 0);
    assert s[0..] == s;
  }

  /** `map(f, ws)` with `f` the table's `get` when extending and its `lookup` otherwise. */
  function MapTokens(t: Table, ws: seq<string>, extend: bool): (r: (Table, seq<nat>))
    requires Valid(t)
    ensures Valid(r.0) && Grows(t, r.0)
    ensures !extend ==> r.0 == t
    ensures extend ==> forall w :: w in r.0.d <==> w in t.d || w in ws
    ensures |r.1| == |ws|
    ensures forall i :: 0 <= i < |ws| ==> r.1[i] == Lookup(r.0, ws[i])
  {
    if extend then GetAll(t, ws) else (t, LookupAll(t, ws))
  }

  /** `ids` are the ids, under `t`, of `tokens`. */
  ghost predicate IdsOf(t: Table, tokens: seq<string>, ids: seq<nat>)
    requires Valid(t)
  {
    |ids| == |tokens| && forall i :: 0 <= i < |tokens| ==> ids[i] == Lookup(t, tokens[i])
  }

  /** `cids` holds, per token of `s`, the char ids of its grams under `t`. */
  ghost predicate CharIdsOf(t: Table, s: seq<string>, k: nat, cids: seq<seq<nat>>)
    requires Valid(t)
  {
    |cids| == |s| && forall j :: 0 <= j < |s| ==> IdsOf(t, CharGrams(s[j], k), cids[j])
  }

  /** Ids read under a table stay the ids under a grown table when every token was present. */
  lemma IdsOfGrows(t1: Table, t2: Table, tokens: seq<string>, ids: seq<nat>)
    requires Valid(t1) && Valid(t2) && Grows(t1, t2)
    requires t1 == t2 || forall i :: 0 <= i < |tokens| ==> tokens[i] in t1.d
    requires IdsOf(t1, tokens, ids)
    ensures IdsOf(t2, tokens, ids)
  {
    if t1 != t2 {
      forall i | 0 <= i < |tokens|
        ensures ids[i] == Lookup(t2, tokens[i])
      {
        assert tokens[i] in t1.d;
      }
    }
  }

  /** All grams of all tokens of `s` are in `t`. */
  ghost predicate GramsIn(t: Table, s: seq<string>, k: nat) {
    forall j, g :: 0 <= j < |s| && 0 <= g < |CharGrams(s[j], k)| ==> CharGrams(s[j], k)[g] in t.d
  }

  lemma CharIdsOfGrows(t1: Table, t2: Table, s: seq<string>, k: nat, cids: seq<seq<nat>>)
    requires Valid(t1) && Valid(t2) && Grows(t1, t2)
    requires t1 == t2 || GramsIn(t1, s, k)
    requires CharIdsOf(t1, s, k, cids)
    ensures CharIdsOf(t2, s, k, cids)
  {
    forall j | 0 <= j < |s|
      ensures IdsOf(t2, CharGrams(s[j], k), cids[j])
    {
      IdsOfGrows(t1, t2, CharGrams(s[j], k), cids[j]);
    }
  }

  /** Putting the first token's char ids in front of the rest's keeps `CharIdsOf`. */
  lemma MapCharGramsStep(t1: Table, t2: Table, s: seq<string>, k: nat, extend: bool,
                         first: seq<nat>, rest: seq<seq<nat>>)
    requires Valid(t1) && Valid(t2) && Grows(t1, t2) && |s| > 0
    requires !extend ==> t2 == t1
    requires extend ==> forall g :: 0 <= g < |CharGrams(s[0], k)| ==> CharGrams(s[0], k)[g] in t1.d
    requires extend ==> GramsIn(t2, s[1..], k)
    requires IdsOf(t1, CharGrams(s[0], k), first)
    requires CharIdsOf(t2, s[1..], k, rest)
    ensures extend ==> GramsIn(t2, s, k)
    ensures CharIdsOf(t2, s, k, [first] + rest)
  {
    IdsOfGrows(t1, t2, CharGrams(s[0], k), first);
    CharIdsOfCons(t2, s, k, first, rest);
    if extend {
      GramsInCons(t1, t2, s, k);
    }
  }

  /** The first token's gram ids in front of the rest's are the char ids of the whole sentence. */
  lemma CharIdsOfCons(t: Table, s: seq<string>, k: nat, first: seq<nat>, rest: seq<seq<nat>>)
    requires Valid(t) && |s| > 0
    requires IdsOf(t, CharGrams(s[0], k), first)
    requires CharIdsOf(t, s[1..], k, rest)
    ensures CharIdsOf(t, s, k, [first] + rest)
  {
    var r := [first] + rest;
    forall j | 1 <= j < |s|
      ensures IdsOf(t, CharGrams(s[j], k), r[j])
    {
      assert s[1..][j - 1] == s[j];
      assert r[j] == rest[j - 1];
    }
  }

  /** The first token's grams, present before the rest grew the table, and the
      rest's grams are all present afterwards. */
  lemma GramsInCons(t1: Table, t2: Table, s: seq<string>, k: nat)
    requires Grows(t1, t2) && |s| > 0
    requires forall g :: 0 <= g < |CharGrams(s[0], k)| ==> CharGrams(s[0], k)[g] in t1.d
    requires GramsIn(t2, s[1..], k)
    ensures GramsIn(t2, s, k)
  {
    forall j, g | 0 <= j < |s| && 0 <= g < |CharGrams(s[j], k)|
      ensures CharGrams(s[j], k)[g] in t2.d
    {
      if j > 0 {
        assert s[1..][j - 1] == s[j];
      }
    }
  }

  /** `w` is a gram of some token of `s`. */
  ghost predicate InGrams(s: seq<string>, k: nat, w: string) {
    exists j :: 0 <= j < |s| && w in CharGrams(s[j], k)
  }

  /** The grams of a sentence are those of its first token and those of the rest. */
  lemma InGramsCons(s: seq<string>, k: nat, w: string)
    requires |s| > 0
    ensures InGrams(s, k, w) <==> w in CharGrams(s[0], k) || InGrams(s[1..], k, w)
  {
    if InGrams(s, k, w) {
      var j :| 0 <= j < |s| && w in CharGrams(s[j], k);
      if j > 0 {
        assert s[1..][j - 1] == s[j];
      }
    }
    if InGrams(s[1..], k, w) {
      var j :| 0 <= j < |s[1..]| && w in CharGrams(s[1..][j], k);
      assert s[j + 1] == s[1..][j];
    }
  }

  /** Extending by the first token's grams and then by the rest's adds exactly
      the sentence's grams. */
  lemma GramKeysStep(t: Table, t1: Table, t2: Table, s: seq<string>, k: nat, extend: bool)
    requires |s| > 0
    requires extend ==> forall w :: w in t1.d <==> w in t.d || w in CharGrams(s[0], k)
    requires extend ==> forall w :: w in t2.d <==> w in t1.d || InGrams(s[1..], k, w)
    ensures extend ==> forall w :: w in t2.d <==> w in t.d || InGrams(s, k, w)
  {
    if extend {
      forall w
        ensures w in t2.d <==> w in t.d || InGrams(s, k, w)
      {
        InGramsCons(s, k, w);
      }
    }
  }

  /** The char half of one sentence: the grams of every token, mapped token by token. */
  function MapCharGrams(t: Table, s: seq<string>, k: nat, extend: bool): (r: (Table, seq<seq<nat>>))
    requires Valid(t)
    ensures Valid(r.0) && Grows(t, r.0)
    ensures !extend ==> r.0 == t
    ensures extend ==> GramsIn(r.0, s, k)
    ensures extend ==> forall w :: w in r.0.d <==> w in t.d || InGrams(s, k, w)
    ensures CharIdsOf(r.0, s, k, r.1)
    decreases |s|
  {
    if |s| == 0 then (t, [])
    else
      var (t1, first) := MapTokens(t, CharGrams(s[0], k), extend);
      var (t2, rest) := MapCharGrams(t1, s[1..], k, extend);
      MapCharGramsStep(t1, t2, s, k, extend, first, rest);
      GramKeysStep(t, t1, t2, s, k, extend);
      (t2, [first] + rest)
  }

  /** The outcome of preprocessing: the (possibly grown) tables and, per candidate,
      its word ids and its per-token char ids. */
  datatype Encoded = Encoded(wordDict: Table, charDict: Table,
                             wordSeqs: seq<seq<nat>>, charSeqs: seq<seq<seq<nat>>>)

  /** What preprocessing promises about its output, candidate by candidate. */
  ghost predicate EncodesAll(r: Encoded, cands: seq<Candidate>, k: nat, mark: Marker)
    requires Valid(r.wordDict) && Valid(r.charDict)
    requires forall i :: 0 <= i < |cands| ==> WellFormed(cands[i])
  {
    && |r.wordSeqs| == |cands|
    && |r.charSeqs| == |cands|
    && (forall i :: 0 <= i < |cands| ==> IdsOf(r.wordDict, Marked(cands[i], mark), r.wordSeqs[i]))
    && (forall i :: 0 <= i < |cands| ==> CharIdsOf(r.charDict, Marked(cands[i], mark), k, r.charSeqs[i]))
  }

  /** Every marked token and every gram of every candidate is in the tables. */
  ghost predicate AllIn(wt: Table, ct: Table, cands: seq<Candidate>, k: nat, mark: Marker)
    requires forall i :: 0 <= i < |cands| ==> WellFormed(cands[i])
  {
    forall i :: 0 <= i < |cands| ==>
      (forall j :: 0 <= j < |Marked(cands[i], mark)| ==> Marked(cands[i], mark)[j] in wt.d)
      && GramsIn(ct, Marked(cands[i], mark), k)
  }

  /** `w` is a marked token of some candidate. */
  ghost predicate InMarked(cands: seq<Candidate>, mark: Marker, w: string) {
    exists i :: 0 <= i < |cands| && WellFormed(cands[i]) && w in Marked(cands[i], mark)
  }

  /** `w` is a gram of a marked token of some candidate. */
  ghost predicate InCandGrams(cands: seq<Candidate>, k: nat, mark: Marker, w: string) {
    exists i :: 0 <= i < |cands| && WellFormed(cands[i]) && InGrams(Marked(cands[i], mark), k, w)
  }

  /** The tokens and grams of candidates are those of the first and those of the rest. */
  lemma InCandsCons(cands: seq<Candidate>, k: nat, mark: Marker, w: string)
    requires |cands| > 0 && WellFormed(cands[0])
    ensures InMarked(cands, mark, w) <==> w in Marked(cands[0], mark) || InMarked(cands[1..], mark, w)
    ensures InCandGrams(cands, k, mark, w) <==>
      InGrams(Marked(cands[0], mark), k, w) || InCandGrams(cands[1..], k, mark, w)
  {
    forall i | 1 <= i < |cands|
      ensures cands[1..][i - 1] == cands[i]
    {
    }
    if InMarked(cands[1..], mark, w) {
      var i :| 0 <= i < |cands[1..]| && WellFormed(cands[1..][i]) && w in Marked(cands[1..][i], mark);
      assert cands[i + 1] == cands[1..][i];
    }
    if InCandGrams(cands[1..], k, mark, w) {
      var i :| 0 <= i < |cands[1..]| && WellFormed(cands[1..][i]) && InGrams(Marked(cands[1..][i], mark), k, w);
      assert cands[i + 1] == cands[1..][i];
    }
  }

  /** Extending by the first candidate and then by the rest adds exactly the
      candidates' marked tokens to the word table and their grams to the char table. */
  lemma EncodeKeysStep(wt: Table, ct: Table, wt1: Table, ct1: Table, rest: Encoded,
                       cands: seq<Candidate>, k: nat, extend: bool, mark: Marker)
    requires |cands| > 0 && forall i :: 0 <= i < |cands| ==> WellFormed(cands[i])
    requires extend ==> forall w :: w in wt1.d <==> w in wt.d || w in Marked(cands[0], mark)
    requires extend ==> forall w :: w in ct1.d <==> w in ct.d || InGrams(Marked(cands[0], mark), k, w)
    requires extend ==> forall w :: w in rest.wordDict.d <==> w in wt1.d || InMarked(cands[1..], mark, w)
    requires extend ==> forall w :: w in rest.charDict.d <==> w in ct1.d || InCandGrams(cands[1..], k, mark, w)
    ensures extend ==> forall w :: w in rest.wordDict.d <==> w in wt.d || InMarked(cands, mark, w)
    ensures extend ==> forall w :: w in rest.charDict.d <==> w in ct.d || InCandGrams(cands, k, mark, w)
  {
    if extend {
      forall w
        ensures w in rest.wordDict.d <==> w in wt.d || InMarked(cands, mark, w)
        ensures w in rest.charDict.d <==> w in ct.d || InCandGrams(cands, k, mark, w)
      {
        InCandsCons(cands, k, mark, w);
      }
    }
  }

  /** The candidate loop of `_preprocess_data`, from given tables. */
  function EncodeFrom(wt: Table, ct: Table, cands: seq<Candidate>, k: nat, extend: bool, mark: Marker): (r: Encoded)
    requires Valid(wt) && Valid(ct)
    requires forall i :: 0 <= i < |cands| ==> WellFormed(cands[i])
    ensures Valid(r.wordDict) && Valid(r.charDict)
    ensures Grows(wt, r.wordDict) && Grows(ct, r.charDict)
    ensures !extend ==> r.wordDict == wt && r.charDict == ct
    ensures extend ==> AllIn(r.wordDict, r.charDict, cands, k, mark)
    ensures extend ==> forall w :: w in r.wordDict.d <==> w in wt.d || InMarked(cands, mark, w)
    ensures extend ==> forall w :: w in r.charDict.d <==> w in ct.d || InCandGrams(cands, k, mark, w)
    ensures EncodesAll(r, cands, k, mark)
    decreases |cands|
  {
    if |cands| == 0 then Encoded(wt, ct, [], [])
    else
      var s := Marked(cands[0], mark);
      var (wt1, wids) := MapTokens(wt, s, extend);
      var (ct1, cids) := MapCharGrams(ct, s, k, extend);
      var rest := EncodeFrom(wt1, ct1, cands[1..], k, extend, mark);
      EncodeStep(wt1, ct1, cands, k, extend, mark, wids, cids, rest);
      EncodeKeysStep(wt, ct, wt1, ct1, rest, cands, k, extend, mark);
      Encoded(rest.wordDict, rest.charDict, [wids] + rest.wordSeqs, [cids] + rest.charSeqs)
  }

  /** Putting the first candidate's encoding in front of the rest's keeps `EncodesAll`. */
  lemma EncodeStep(wt1: Table, ct1: Table, cands: seq<Candidate>, k: nat, extend: bool, mark: Marker,
                   wids: seq<nat>, cids: seq<seq<nat>>, rest: Encoded)
    requires Valid(wt1) && Valid(ct1) && Valid(rest.wordDict) && Valid(rest.charDict)
    requires |cands| > 0 && forall i :: 0 <= i < |cands| ==> WellFormed(cands[i])
    requires Grows(wt1, rest.wordDict) && Grows(ct1, rest.charDict)
    requires !extend ==> rest.wordDict == wt1 && rest.charDict == ct1
    requires extend ==> forall j :: 0 <= j < |Marked(cands[0], mark)| ==> Marked(cands[0], mark)[j] in wt1.d
    requires extend ==> GramsIn(ct1, Marked(cands[0], mark), k)
    requires IdsOf(wt1, Marked(cands[0], mark), wids)
    requires CharIdsOf(ct1, Marked(cands[0], mark), k, cids)
    requires extend ==> AllIn(rest.wordDict, rest.charDict, cands[1..], k, mark)
    requires EncodesAll(rest, cands[1..], k, mark)
    ensures extend ==> AllIn(rest.wordDict, rest.charDict, cands, k, mark)
    ensures EncodesAll(Encoded(rest.wordDict, rest.charDict, [wids] + rest.wordSeqs, [cids] + rest.charSeqs), cands, k, mark)
  {
    var s := Marked(cands[0], mark);
    IdsOfGrows(wt1, rest.wordDict, s, wids);
    CharIdsOfGrows(ct1, rest.charDict, s, k, cids);
    EncodesAllCons(cands, k, mark, wids, cids, rest);
    if extend {
      GramsInGrows(ct1, rest.charDict, s, k);
      AllInCons(rest.wordDict, rest.charDict, cands, k, mark);
    }
  }

  /** The first candidate's ids in front of an encoding of the rest encode them all. */
  lemma EncodesAllCons(cands: seq<Candidate>, k: nat, mark: Marker, wids: seq<nat>, cids: seq<seq<nat>>, rest: Encoded)
    requires Valid(rest.wordDict) && Valid(rest.charDict)
    requires |cands| > 0 && forall i :: 0 <= i < |cands| ==> WellFormed(cands[i])
    requires IdsOf(rest.wordDict, Marked(cands[0], mark), wids)
    requires CharIdsOf(rest.charDict, Marked(cands[0], mark), k, cids)
    requires EncodesAll(rest, cands[1..], k, mark)
    ensures EncodesAll(Encoded(rest.wordDict, rest.charDict, [wids] + rest.wordSeqs, [cids] + rest.charSeqs), cands, k, mark)
  {
    var r := Encoded(rest.wordDict, rest.charDict, [wids] + rest.wordSeqs, [cids] + rest.charSeqs);
    forall i | 1 <= i < |cands|
      ensures IdsOf(r.wordDict, Marked(cands[i], mark), r.wordSeqs[i])
      ensures CharIdsOf(r.charDict, Marked(cands[i], mark), k, r.charSeqs[i])
    {
      assert cands[1..][i - 1] == cands[i];
      assert r.wordSeqs[i] == rest.wordSeqs[i - 1];
      assert r.charSeqs[i] == rest.charSeqs[i - 1];
    }
  }

  /** Grams present in a table are present in any table that grows it. */
  lemma GramsInGrows(t1: Table, t2: Table, s: seq<string>, k: nat)
    requires Grows(t1, t2) && GramsIn(t1, s, k)
    ensures GramsIn(t2, s, k)
  {
  }

  /** The first candidate's tokens and grams in the tables, with the rest's, give them all. */
  lemma AllInCons(wt: Table, ct: Table, cands: seq<Candidate>, k: nat, mark: Marker)
    requires |cands| > 0 && forall i :: 0 <= i < |cands| ==> WellFormed(cands[i])
    requires forall j :: 0 <= j < |Marked(cands[0], mark)| ==> Marked(cands[0], mark)[j] in wt.d
    requires GramsIn(ct, Marked(cands[0], mark), k)
    requires AllIn(wt, ct, cands[1..], k, mark)
    ensures AllIn(wt, ct, cands, k, mark)
  {
    forall i | 1 <= i < |cands|
      ensures (forall j :: 0 <= j < |Marked(cands[i], mark)| ==> Marked(cands[i], mark)[j] in wt.d)
      ensures GramsIn(ct, Marked(cands[i], mark), k)
    {
      assert cands[1..][i - 1] == cands[i];
    }
  }

  /** A fresh word table seeded with the word paddings. */
  function SeededWordTable(): (t: Table)
    ensures Valid(t)
    ensures forall w :: w in t.d <==> w in WordMarkers
  {
    GetAll(Empty(), WordMarkers).0
  }

  /** A fresh char table seeded with the char markers. */
  function SeededCharTable(): (t: Table)
    ensures Valid(t)
    ensures forall w :: w in t.d <==> w in CharMarkers
  {
    GetAll(Empty(), CharMarkers).0
  }

  /** `_preprocess_data(candidates, extend)`: a table the model does not hold yet
      is created and seeded first; then the candidates are encoded in order. */
  function PreprocessData(wordDict: Option<Table>, charDict: Option<Table>, cands: seq<Candidate>,
                          k: nat, extend: bool, mark: Marker): (r: Encoded)
    requires wordDict.Some? ==> Valid(wordDict.value)
    requires charDict.Some? ==> Valid(charDict.value)
    requires forall i :: 0 <= i < |cands| ==> WellFormed(cands[i])
    ensures Valid(r.wordDict) && Valid(r.charDict)
    ensures wordDict.Some? ==> Grows(wordDict.value, r.wordDict)
    ensures charDict.Some? ==> Grows(charDict.value, r.charDict)
    ensures wordDict.None? ==> Grows(SeededWordTable(), r.wordDict)
    ensures charDict.None? ==> Grows(SeededCharTable(), r.charDict)
    ensures !extend && wordDict.Some? ==> r.wordDict == wordDict.value
    ensures !extend && charDict.Some? ==> r.charDict == charDict.value
    ensures !extend && wordDict.None? ==> r.wordDict == SeededWordTable()
    ensures !extend && charDict.None? ==> r.charDict == SeededCharTable()
    ensures extend ==> AllIn(r.wordDict, r.charDict, cands, k, mark)
    ensures EncodesAll(r, cands, k, mark)
  {
    var wt := OrSeeded(wordDict, SeededWordTable());
    var ct := OrSeeded(charDict, SeededCharTable());
    EncodeFrom(wt, ct, cands, k, extend, mark)
  }

  /** The table the model holds, or a freshly seeded one when it holds none. */
  function OrSeeded(t: Option<Table>, seeded: Table): (r: Table)
    requires t.Some? ==> Valid(t.value)
    requires Valid(seeded)
    ensures Valid(r)
    ensures t.Some? ==> r == t.value
    ensures t.None? ==> r == seeded
  {
    if t.Some? then t.value else seeded
  }

  /** The keys of the table used: the model's own, or the markers of a fresh one. */
  lemma OrSeededKeys(t: Option<Table>, seeded: Table, markers: seq<string>)
    requires t.Some? ==> Valid(t.value)
    requires Valid(seeded)
    requires forall w :: w in seeded.d <==> w in markers
    ensures forall w :: w in OrSeeded(t, seeded).d <==> if t.Some? then w in t.value.d else w in markers
  {
  }

  /** When extending, the word table ends up holding exactly its old tokens
      (the paddings, for a fresh table) and the candidates' marked tokens. */
  lemma PreprocessWordKeys(wordDict: Option<Table>, charDict: Option<Table>, cands: seq<Candidate>,
                           k: nat, mark: Marker)
    requires wordDict.Some? ==> Valid(wordDict.value)
    requires charDict.Some? ==> Valid(charDict.value)
    requires forall i :: 0 <= i < |cands| ==> WellFormed(cands[i])
    ensures forall w :: w in PreprocessData(wordDict, charDict, cands, k, true, mark).wordDict.d <==>
      (if wordDict.Some? then w in wordDict.value.d else w in WordMarkers) || InMarked(cands, mark, w)
  {
    OrSeededKeys(wordDict, SeededWordTable(), WordMarkers);
  }

  /** When extending, the char table ends up holding exactly its old grams
      (the two markers, for a fresh table) and the grams of the marked tokens. */
  lemma PreprocessCharKeys(wordDict: Option<Table>, charDict: Option<Table>, cands: seq<Candidate>,
                           k: nat, mark: Marker)
    requires wordDict.Some? ==> Valid(wordDict.value)
    requires charDict.Some? ==> Valid(charDict.value)
    requires forall i :: 0 <= i < |cands| ==> WellFormed(cands[i])
    ensures forall w :: w in PreprocessData(wordDict, charDict, cands, k, true, mark).charDict.d <==>
      (if charDict.Some? then w in charDict.value.d else w in CharMarkers) || InCandGrams(cands, k, mark, w)
  {
    OrSeededKeys(charDict, SeededCharTable(), CharMarkers);
  }

  /** In lookup mode an unseen token (or gram) gets the unknown id and a known one
      its own id; nothing is inserted. */
  lemma LookupModeIds(wt: Table, ct: Table, cands: seq<Candidate>, k: nat, mark: Marker, i: nat, j: nat)
    requires Valid(wt) && Valid(ct)
    requires forall c :: 0 <= c < |cands| ==> WellFormed(cands[c])
    requires i < |cands| && j < |Marked(cands[i], mark)|
    ensures var r := PreprocessData(Some(wt), Some(ct), cands, k, false, mark);
      && (r.wordSeqs[i][j] == UnknownSymbol <==> Marked(cands[i], mark)[j] !in wt.d)
      && r.wordDict == wt && r.charDict == ct
  {
    var r := PreprocessData(Some(wt), Some(ct), cands, k, false, mark);
    assert IdsOf(r.wordDict, Marked(cands[i], mark), r.wordSeqs[i]);
  }

  /** `max_len or self.max_sentence_length`: an absent or zero `max_len` falls back. */
  function EffectiveLimit(maxLen: Option<int>, maxSentenceLength: int): int {
    if maxLen.Some? && maxLen.value != 0 then maxLen.value else maxSentenceLength
  }

  /** `_check_max_sentence_length`: the indices of the candidates that would be
      warned about, in order. Nothing is dropped and nothing is raised. */
  method CheckMaxSentenceLength(ends: seq<int>, maxLen: Option<int>, maxSentenceLength: int)
    returns (flagged: seq<nat>)
    ensures forall i: nat :: i in flagged <==>
      i < |ends| && ends[i] >= EffectiveLimit(maxLen, maxSentenceLength)
    ensures forall a, b :: 0 <= a < b < |flagged| ==> flagged[a] < flagged[b]
  {
    var mx := EffectiveLimit(maxLen, maxSentenceLength);
    flagged := [];
    var i := 0;
    while i < |ends|
      invariant 0 <= i <= |ends|
      invariant forall x: nat :: x in flagged <==> x < i && ends[x] >= mx
      invariant forall a :: 0 <= a < |flagged| ==> flagged[a] < i
      invariant forall a, b :: 0 <= a < b < |flagged| ==> flagged[a] < flagged[b]
    {
      if ends[i] >= mx {
        flagged := flagged + [i];
      }
      i := i + 1;
    }
  }
}
