/** The chemical-disease relation helpers of the tutorial: locate the sentence
    that holds each annotation's absolute character offset, turn the offset
    into a sentence-relative span, index the mentions by MESH id, and keep the
    annotated chemical-disease relations whose two mentions share a sentence.
    Annotations and relations arrive as records already read from the XML. */
module Cdr {
  import opened Wrappers

  /** One `annotation` element: its CompositeRole infon (if any), location,
      type and MESH infons, and text. */
  datatype Annotation = Annotation(compRole: Option<string>, offset: int, length: int,
                                   typ: string, mesh: string, txt: string)

  /** `(sent, char_start, char_end, txt)`, with the sentence given by its index
      in the document's sentence list. */
  datatype Mention = Mention(sent: nat, charStart: int, charEnd: int, txt: string)

  /** One `relation` element: its Chemical and Disease MESH infons. */
  datatype Relation = Relation(chemical: string, disease: string)

  /** The annotation is an individual part of a composite mention and is ignored. */
  predicate Skipped(a: Annotation) {
    a.compRole == Some("IndividualMention")
  }

  /** Sentence start offsets rise strictly, as the sentences of a document do. */
  predicate Increasing(starts: seq<int>) {
    forall a, b :: 0 <= a < b < |starts| ==> starts[a] < starts[b]
  }

  /** The scan over `sent_offsets` from position `i`, every earlier start lying
      below `offset`: stop at a start equal to `offset` (that sentence) or above
      it (the one before); run off the end to the last sentence. */
  function ScanFrom(starts: seq<int>, offset: int, i: nat): (r: int)
    requires i <= |starts|
    requires forall j :: 0 <= j < i ==> starts[j] < offset
    ensures i - 1 <= r < |starts|
    ensures forall j :: 0 <= j < r ==> starts[j] < offset
    ensures r >= 0 ==> starts[r] <= offset
    ensures r + 1 < |starts| ==> offset < starts[r + 1] || (r >= 0 && starts[r] == offset)
    decreases |starts| - i
  {
    if i == |starts| then |starts| - 1
    else if offset == starts[i] then i
    else if offset < starts[i] then i - 1
    else ScanFrom(starts, offset, i + 1)
  }

  /** `si` as the loop leaves it: `-1` for an offset before the first sentence. */
  function SentenceIndex(starts: seq<int>, offset: int): (r: int)
    ensures -1 <= r < |starts|
    ensures r == -1 <==> |starts| == 0 || offset < starts[0]
    ensures r >= 0 ==> starts[r] <= offset
  {
    ScanFrom(starts, offset, 0)
  }

  /** With rising starts and an offset at or after the first one, the scan
      picks the last sentence that starts at or before the offset. */
  lemma SentenceIndexIsLastStartBefore(starts: seq<int>, offset: int)
    requires Increasing(starts)
    requires |starts| > 0 && offset >= starts[0]
    ensures var r := SentenceIndex(starts, offset);
      && 0 <= r < |starts| && starts[r] <= offset
      && forall j :: r < j < |starts| ==> offset < starts[j]
  {
    var r := SentenceIndex(starts, offset);
    forall j | r < j < |starts|
      ensures offset < starts[j]
    {
      assert starts[r + 1] <= starts[j];
    }
  }

  /** `sents[si]` with Python's negative index: `-1` is the last sentence. */
  function Resolve(si: int, n: nat): (r: Result<nat>)
    requires -1 <= si < n
    ensures r.Err? <==> n == 0
    ensures r.Err? ==> r.fault == IndexError
    ensures r.Ok? ==> r.value < n && (si >= 0 ==> r.value == si) && (si < 0 ==> r.value == n - 1)
  {
    if n == 0 then Err(IndexError)
    else if si < 0 then Ok(si + n)
    else Ok(si)
  }

  /** The mention one annotation gives. */
  function MentionOf(starts: seq<int>, a: Annotation): (r: Result<Mention>)
    ensures r.Err? <==> |starts| == 0
    ensures r.Ok? ==> r.value.sent < |starts| && r.value.txt == a.txt
    ensures r.Ok? ==> r.value.charStart == a.offset - starts[r.value.sent]
    ensures r.Ok? ==> r.value.charEnd - r.value.charStart + 1 == a.length
    ensures r.Ok? && a.offset >= starts[0] ==> r.value.charStart >= 0
    ensures r.Ok? && a.offset < starts[0] ==> r.value.sent == |starts| - 1
    ensures r.Ok? && a.offset >= starts[0] ==> r.value.sent == SentenceIndex(starts, a.offset)
  {
    var si := SentenceIndex(starts, a.offset);
    var k :- Resolve(si, |starts|);
    var charStart := a.offset - starts[k];
    Ok(Mention(k, charStart, charStart + a.length - 1, a.txt))
  }

  /** In a document whose sentences start in rising order, an annotation at or
      after the first start lands in the last sentence starting at or before
      it, at a non-negative position no later sentence could give. */
  lemma MentionInLastStartBefore(starts: seq<int>, a: Annotation)
    requires Increasing(starts)
    requires |starts| > 0 && a.offset >= starts[0]
    ensures MentionOf(starts, a).Ok?
    ensures var m := MentionOf(starts, a).value;
      && 0 <= m.charStart && starts[m.sent] <= a.offset
      && forall j :: m.sent < j < |starts| ==> a.offset < starts[j]
  {
    SentenceIndexIsLastStartBefore(starts, a.offset);
  }

  /** An offset before the first sentence lands in the LAST sentence with a
      negative start, as Python's `sents[-1]` has it. */
  lemma EarlyOffsetWrapsToLastSentence()
    ensures MentionOf([10, 20], Annotation(None, 5, 3, "Chemical", "D1", "abc"))
            == Ok(Mention(1, -15, -13, "abc"))
  {
  }

  /** `a` is the last annotation of `anns` that is not skipped and has MESH id `k`. */
  ghost predicate LastFor(anns: seq<Annotation>, k: string, i: nat) {
    && i < |anns| && !Skipped(anns[i]) && anns[i].mesh == k
    && forall j :: i < j < |anns| ==> Skipped(anns[j]) || anns[j].mesh != k
  }

  /** Some annotation of `anns` that is not skipped has MESH id `k`. */
  ghost predicate Named(anns: seq<Annotation>, k: string) {
    exists i :: 0 <= i < |anns| && !Skipped(anns[i]) && anns[i].mesh == k
  }

  /** Some annotation of `anns` is not skipped. */
  ghost predicate AnyKept(anns: seq<Annotation>) {
    exists i :: 0 <= i < |anns| && !Skipped(anns[i])
  }

  /** `get_CD_mentions_by_MESHID`: the annotations in document order, each
      not skipped one writing its mention under its MESH id. */
  function Mentions(starts: seq<int>, anns: seq<Annotation>): (r: Result<map<string, Mention>>)
    ensures r.Err? <==> |starts| == 0 && AnyKept(anns)
    ensures r.Err? ==> r.fault == IndexError
    ensures r.Ok? ==> forall k :: k in r.value <==> Named(anns, k)
    ensures r.Ok? ==> forall k, i: nat :: LastFor(anns, k, i) ==> k in r.value && r.value[k] == MentionOf(starts, anns[i]).value
    decreases |anns|
  {
    if |anns| == 0 then Ok(map[])
    else
      var front := anns[..|anns| - 1];
      var a := anns[|anns| - 1];
      var prev :- Mentions(starts, front);
      MentionsStep(starts, anns);
      if Skipped(a) then Ok(prev)
      else
        var m :- MentionOf(starts, a);
        Ok(prev[a.mesh := m])
  }

  /** The facts about the front of `anns` that carry over to `anns`. */
  lemma MentionsStep(starts: seq<int>, anns: seq<Annotation>)
    requires |anns| > 0
    ensures var front := anns[..|anns| - 1];
      && (AnyKept(anns) <==> AnyKept(front) || !Skipped(anns[|anns| - 1]))
      && (forall k, i: nat :: LastFor(anns, k, i) && i < |anns| - 1 ==> LastFor(front, k, i))
      && (forall k, i: nat :: LastFor(anns, k, i) && i == |anns| - 1 ==> k == anns[|anns| - 1].mesh)
      && (forall k :: Named(anns, k) <==> Named(front, k) || (!Skipped(anns[|anns| - 1]) && anns[|anns| - 1].mesh == k))
  {
    var front := anns[..|anns| - 1];
    assert forall i :: 0 <= i < |front| ==> front[i] == anns[i];
    forall k
      ensures Named(anns, k) ==> Named(front, k) || (!Skipped(anns[|anns| - 1]) && anns[|anns| - 1].mesh == k)
    {
      if Named(anns, k) {
        var i :| 0 <= i < |anns| && !Skipped(anns[i]) && anns[i].mesh == k;
        if i < |front| {
          assert front[i] == anns[i];
        }
      }
    }
    if AnyKept(anns) {
      var i :| 0 <= i < |anns| && !Skipped(anns[i]);
      if i < |front| {
        assert front[i] == anns[i];
      }
    }
  }

  /** Individual-mention annotations may be removed without changing the mentions. */
  function KeptOnly(anns: seq<Annotation>): (r: seq<Annotation>)
    ensures forall i :: 0 <= i < |r| ==> !Skipped(r[i])
    ensures |r| <= |anns|
  {
    if |anns| == 0 then []
    else if Skipped(anns[0]) then KeptOnly(anns[1..])
    else [anns[0]] + KeptOnly(anns[1..])
  }

  /** Skipped annotations contribute nothing: dropping them all leaves the
      mentions as they were. */
  lemma {:induction false} MentionsIgnoreSkipped(starts: seq<int>, anns: seq<Annotation>)
    ensures Mentions(starts, KeptOnly(anns)) == Mentions(starts, anns)
    decreases |anns|
  {
    if |anns| > 0 {
      var front := anns[..|anns| - 1];
      var a := anns[|anns| - 1];
      MentionsIgnoreSkipped(starts, front);
      KeptOnlyAppend(front, a);
      assert front + [a] == anns;
      if !Skipped(a) {
        var kf := KeptOnly(front);
        assert (kf + [a])[..|kf + [a]| - 1] == kf;
      }
    }
  }

  lemma {:induction false} KeptOnlyAppend(front: seq<Annotation>, a: Annotation)
    ensures KeptOnly(front + [a]) == if Skipped(a) then KeptOnly(front) else KeptOnly(front) + [a]
    decreases |front|
  {
    if |front| == 0 {
      assert front + [a] == [a];
      assert [a][1..] == [];
    } else {
      assert (front + [a])[0] == front[0];
      assert (front + [a])[1..] == front[1..] + [a];
      KeptOnlyAppend(front[1..], a);
    }
  }

  /** The relation's two ids are both mentioned, in one sentence. */
  predicate Kept(ms: map<string, Mention>, rel: Relation) {
    rel.chemical in ms && rel.disease in ms && ms[rel.chemical].sent == ms[rel.disease].sent
  }

  /** The loop of `get_CID_relations` over the relations: a missing id skips
      the relation, a pair across sentences is dropped. */
  function CidPairs(ms: map<string, Mention>, rels: seq<Relation>): (r: seq<(Mention, Mention)>)
    ensures |r| <= |rels|
    ensures forall k :: 0 <= k < |r| ==> r[k].0.sent == r[k].1.sent
    ensures forall k :: 0 <= k < |r| ==>
      exists i :: 0 <= i < |rels| && Kept(ms, rels[i]) && r[k] == (ms[rels[i].chemical], ms[rels[i].disease])
    ensures (forall i :: 0 <= i < |rels| ==> !Kept(ms, rels[i])) ==> r == []
    ensures forall i :: 0 <= i < |rels| && Kept(ms, rels[i]) ==>
      (ms[rels[i].chemical], ms[rels[i].disease]) in r
    decreases |rels|
  {
    if |rels| == 0 then []
    else
      var rest := CidPairs(ms, rels[1..]);
      assert forall i :: 1 <= i < |rels| ==> rels[i] == rels[1..][i - 1];
      if Kept(ms, rels[0]) then [(ms[rels[0].chemical], ms[rels[0].disease])] + rest
      else rest
  }

  /** Relations are answered in annotation order: the pairs of two runs of
      relations are the pairs of the first run followed by those of the second. */
  lemma {:induction false} CidPairsAppend(ms: map<string, Mention>, a: seq<Relation>, b: seq<Relation>)
    ensures CidPairs(ms, a + b) == CidPairs(ms, a) + CidPairs(ms, b)
    decreases |a|
  {
    if |a| == 0 {
      assert a + b == b;
    } else {
      assert (a + b)[0] == a[0] && (a + b)[1..] == a[1..] + b;
      CidPairsAppend(ms, a[1..], b);
    }
  }

  /** A relation whose two ids are mentioned in one sentence yields its pair. */
  lemma CidPairsKeepsKept(ms: map<string, Mention>, rel: Relation)
    requires Kept(ms, rel)
    ensures CidPairs(ms, [rel]) == [(ms[rel.chemical], ms[rel.disease])]
  {
    assert [rel][1..] == [];
  }

  /** A relation naming an id no mention has yields nothing, and raises nothing. */
  lemma CidPairsSkipsMissing(ms: map<string, Mention>, rel: Relation)
    requires rel.chemical !in ms || rel.disease !in ms
    ensures CidPairs(ms, [rel]) == []
  {
  }

  /** `get_CID_relations`: the mentions of the document, then the kept pairs.
      A failure of the mentions surfaces as the generator's failure. */
  function CidRelations(starts: seq<int>, anns: seq<Annotation>, rels: seq<Relation>)
    : (r: Result<seq<(Mention, Mention)>>)
    ensures r.Ok? <==> Mentions(starts, anns).Ok?
    ensures r.Ok? ==> forall k :: 0 <= k < |r.value| ==> r.value[k].0.sent == r.value[k].1.sent
    ensures r.Ok? ==> r.value == CidPairs(Mentions(starts, anns).value, rels)
  {
    var ms :- Mentions(starts, anns);
    Ok(CidPairs(ms, rels))
  }
}
