/** The token-bounded chunk packer, `chunk_elements` in backend/app/extractor.py.

    The tokenizer is the parameter `count` (the number of token ids of a text);
    nothing is assumed of it, in particular not that it adds up over a join.

    The packer is modelled as a left fold over the elements whose state keeps,
    besides what the source keeps, where every emitted chunk came from: a
    `Packed` piece is a flushed accumulator (its member elements), a `Part` piece
    is one word group cut from an oversized element. Rendering the pieces gives
    exactly the chunks the source appends. */
module Extractor {
  import opened Seqs
  import opened Text

  datatype Element = Element(text: string, html: string)
  datatype Chunk = Chunk(text: string, html: string)

  /** Provenance of one emitted chunk. */
  datatype Piece = Packed(members: seq<Element>) | Part(words: seq<string>, html: string)

  /** Word groups cut from an oversized element: the groups emitted inside the
      word loop, and what is left in `cur` when the loop ends. */
  datatype WordGroups = WordGroups(full: seq<seq<string>>, rest: seq<string>)

  /** Accumulator state of the element loop; `pendingCount` is `cur_token_count`. */
  datatype PackState = PackState(done: seq<Piece>, pending: seq<Element>, pendingCount: nat)

  type Counter = string -> nat

  function Texts(els: seq<Element>): seq<string>
  {
    seq(|els|, i requires 0 <= i < |els| => els[i].text)
  }

  function Htmls(els: seq<Element>): seq<string>
  {
    seq(|els|, i requires 0 <= i < |els| => els[i].html)
  }

  /** `[c["text"] for c in chunks]`. */
  function ChunkTexts(chunks: seq<Chunk>): (texts: seq<string>)
    ensures |texts| == |chunks|
    ensures forall j :: 0 <= j < |chunks| ==> texts[j] == chunks[j].text
  {
    if chunks == [] then [] else [chunks[0].text] + ChunkTexts(chunks[1..])
  }

  /** Sum of the per-element token counts. */
  function SumCounts(els: seq<Element>, count: Counter): nat
  {
    if els == [] then 0 else SumCounts(els[..|els| - 1], count) + count(els[|els| - 1].text)
  }

  /** An element that can enter the accumulator (the test at line 40 fails). */
  predicate Fits(e: Element, count: Counter, maxTokens: int)
  {
    count(e.text) <= maxTokens
  }

  // ---------------------------------------------------------------------------
  // Oversized elements: the word loop

  /** The word loop over `words`, with `cur` already accumulated. */
  function Groups(words: seq<string>, cur: seq<string>, count: Counter, maxTokens: int): WordGroups
    decreases |words|
  {
    if words == [] then WordGroups([], cur)
    else
      var grown := cur + [words[0]];
      if count(Join(" ", grown)) >= maxTokens then
        var wg := Groups(words[1..], [], count, maxTokens);
        WordGroups([grown] + wg.full, wg.rest)
      else
        Groups(words[1..], grown, count, maxTokens)
  }

  /** Every non-empty prefix of `ws` joins to a text under the budget. */
  ghost predicate UnderBudget(ws: seq<string>, count: Counter, maxTokens: int)
  {
    forall k :: 1 <= k <= |ws| ==> count(Join(" ", ws[..k])) < maxTokens
  }

  /** A group emitted inside the word loop: non-empty, at or over the budget,
      and the shortest such prefix. */
  ghost predicate FullGroup(g: seq<string>, count: Counter, maxTokens: int)
  {
    && g != []
    && count(Join(" ", g)) >= maxTokens
    && UnderBudget(g[..|g| - 1], count, maxTokens)
  }

  /** Reference description of a greedy word split: the groups and the
      remainder re-assemble the words; each group is the shortest prefix of what
      is left that reaches the budget; the remainder never reaches it. */
  ghost predicate GreedySplit(words: seq<string>, wg: WordGroups, count: Counter, maxTokens: int)
  {
    && Flatten(wg.full) + wg.rest == words
    && (forall i :: 0 <= i < |wg.full| ==> FullGroup(wg.full[i], count, maxTokens))
    && UnderBudget(wg.rest, count, maxTokens)
  }

  lemma UnderBudgetExtend(cur: seq<string>, w: string, count: Counter, maxTokens: int)
    requires UnderBudget(cur, count, maxTokens)
    requires count(Join(" ", cur + [w])) < maxTokens
    ensures UnderBudget(cur + [w], count, maxTokens)
  {
    var grown := cur + [w];
    forall k | 1 <= k <= |grown|
      ensures count(Join(" ", grown[..k])) < maxTokens
    {
      if k <= |cur| {
        assert grown[..k] == cur[..k];
      } else {
        assert grown[..k] == grown;
      }
    }
  }

  lemma GreedyCons(g: seq<string>, rest: seq<string>, wg: WordGroups, count: Counter, maxTokens: int)
    requires FullGroup(g, count, maxTokens)
    requires GreedySplit(rest, wg, count, maxTokens)
    ensures GreedySplit(g + rest, WordGroups([g] + wg.full, wg.rest), count, maxTokens)
  {
    var full := [g] + wg.full;
    assert full[1..] == wg.full;
    assert Flatten(full) == g + Flatten(wg.full);
    forall i | 0 <= i < |full|
      ensures FullGroup(full[i], count, maxTokens)
    {
      if i > 0 {
        assert full[i] == wg.full[i - 1];
      }
    }
  }

  /** The word loop computes a greedy split of the words it is given. */
  lemma {:induction false} GroupsIsGreedy(words: seq<string>, cur: seq<string>, count: Counter, maxTokens: int)
    requires UnderBudget(cur, count, maxTokens)
    ensures GreedySplit(cur + words, Groups(words, cur, count, maxTokens), count, maxTokens)
    decreases |words|
  {
    if words == [] {
      assert cur + words == cur;
    } else {
      var grown := cur + [words[0]];
      assert cur + words == grown + words[1..];
      if count(Join(" ", grown)) >= maxTokens {
        GroupsIsGreedy(words[1..], [], count, maxTokens);
        assert [] + words[1..] == words[1..];
        assert grown[..|grown| - 1] == cur;
        GreedyCons(grown, words[1..], Groups(words[1..], [], count, maxTokens), count, maxTokens);
      } else {
        UnderBudgetExtend(cur, words[0], count, maxTokens);
        GroupsIsGreedy(words[1..], grown, count, maxTokens);
      }
    }
  }

  lemma GreedyTail(words: seq<string>, wg: WordGroups, count: Counter, maxTokens: int)
    requires GreedySplit(words, wg, count, maxTokens)
    requires wg.full != []
    ensures |wg.full[0]| <= |words| && words[..|wg.full[0]|] == wg.full[0]
    ensures GreedySplit(words[|wg.full[0]|..], WordGroups(wg.full[1..], wg.rest), count, maxTokens)
  {
    var g := wg.full[0];
    assert Flatten(wg.full) == g + Flatten(wg.full[1..]);
    assert words == g + (Flatten(wg.full[1..]) + wg.rest);
    assert words[|g|..] == Flatten(wg.full[1..]) + wg.rest;
    forall i | 0 <= i < |wg.full[1..]|
      ensures FullGroup(wg.full[1..][i], count, maxTokens)
    {
      assert wg.full[1..][i] == wg.full[i + 1];
    }
  }

  /** Words none of whose prefixes reach the budget split into no group. */
  lemma UnderBudgetHasNoGroups(words: seq<string>, wg: WordGroups, count: Counter, maxTokens: int)
    requires UnderBudget(words, count, maxTokens)
    requires GreedySplit(words, wg, count, maxTokens)
    ensures wg.full == [] && wg.rest == words
  {
    if wg.full != [] {
      GreedyTail(words, wg, count, maxTokens);
      assert false;
    }
  }

  /** No proper prefix of a full group reaches the budget. */
  lemma ShorterPrefixUnderBudget(g: seq<string>, h: seq<string>, count: Counter, maxTokens: int)
    requires FullGroup(h, count, maxTokens)
    requires 0 < |g| < |h| && h[..|g|] == g
    ensures count(Join(" ", g)) < maxTokens
  {
    assert h[..|h| - 1][..|g|] == g;
  }

  /** Two shortest budget-reaching prefixes of the same words coincide. */
  lemma ShortestPrefixUnique(words: seq<string>, g: seq<string>, h: seq<string>, count: Counter, maxTokens: int)
    requires FullGroup(g, count, maxTokens) && FullGroup(h, count, maxTokens)
    requires |g| <= |words| && words[..|g|] == g
    requires |h| <= |words| && words[..|h|] == h
    ensures g == h
  {
    if |g| < |h| {
      assert h[..|g|] == g;
      ShorterPrefixUnderBudget(g, h, count, maxTokens);
      assert false;
    } else if |h| < |g| {
      assert g[..|h|] == h;
      ShorterPrefixUnderBudget(h, g, count, maxTokens);
      assert false;
    }
  }

  /** A greedy split of given words is unique. */
  lemma {:induction false} GreedySplitUnique(words: seq<string>, a: WordGroups, b: WordGroups, count: Counter, maxTokens: int)
    requires GreedySplit(words, a, count, maxTokens)
    requires GreedySplit(words, b, count, maxTokens)
    ensures a == b
    decreases |words|
  {
    if a.full == [] {
      assert a.rest == words;
      UnderBudgetHasNoGroups(words, b, count, maxTokens);
    } else if b.full == [] {
      assert b.rest == words;
      UnderBudgetHasNoGroups(words, a, count, maxTokens);
    } else {
      GreedyTail(words, a, count, maxTokens);
      GreedyTail(words, b, count, maxTokens);
      ShortestPrefixUnique(words, a.full[0], b.full[0], count, maxTokens);
      var g := a.full[0];
      GreedySplitUnique(words[|g|..], WordGroups(a.full[1..], a.rest), WordGroups(b.full[1..], b.rest), count, maxTokens);
      assert a.full == [g] + a.full[1..];
      assert b.full == [g] + b.full[1..];
    }
  }

  function PartPieces(groups: seq<seq<string>>, html: string): (ps: seq<Piece>)
  {
    seq(|groups|, i requires 0 <= i < |groups| => Part(groups[i], html))
  }

  /** The sub-chunks, in emission order, of a split word list. */
  function GroupPieces(wg: WordGroups, html: string): seq<Piece>
  {
    PartPieces(wg.full, html) + (if wg.rest == [] then [] else [Part(wg.rest, html)])
  }

  /** The sub-chunks the word loop emits for an oversized element. */
  function Parts(e: Element, count: Counter, maxTokens: int): seq<Piece>
  {
    GroupPieces(Groups(Split(e.text), [], count, maxTokens), e.html)
  }

  /** The words of an oversized element's sub-chunks, in order, are the
      element's words: no word is lost, duplicated or reordered; every sub-chunk
      keeps the element's html; every group emitted inside the loop reaches the
      budget and the remainder stays below it. */
  lemma PartsSpec(e: Element, count: Counter, maxTokens: int)
    ensures var wg := Groups(Split(e.text), [], count, maxTokens);
      && GreedySplit(Split(e.text), wg, count, maxTokens)
      && Parts(e, count, maxTokens) == GroupPieces(wg, e.html)
    ensures forall i :: 0 <= i < |Parts(e, count, maxTokens)| ==>
      var p := Parts(e, count, maxTokens)[i];
      p.Part? && p.html == e.html && p.words != [] && Split(Join(" ", p.words)) == p.words
  {
    var words := Split(e.text);
    var wg := Groups(words, [], count, maxTokens);
    GroupsIsGreedy(words, [], count, maxTokens);
    assert [] + words == words;
    SplitYieldsWords(e.text);
    FlattenWords(wg.full, wg.rest, words);
    var ps := Parts(e, count, maxTokens);
    forall i | 0 <= i < |ps|
      ensures ps[i].Part? && ps[i].html == e.html && ps[i].words != []
      ensures Split(Join(" ", ps[i].words)) == ps[i].words
    {
      SplitJoin(ps[i].words);
    }
  }

  lemma AllWordsConcat(a: seq<string>, b: seq<string>)
    requires AllWords(a + b)
    ensures AllWords(a) && AllWords(b)
  {
    assert forall j :: 0 <= j < |a| ==> a[j] == (a + b)[j];
    assert forall j :: 0 <= j < |b| ==> b[j] == (a + b)[|a| + j];
  }

  /** Groups cut out of a word list hold only words. */
  lemma {:induction false} FlattenWords(full: seq<seq<string>>, rest: seq<string>, words: seq<string>)
    requires Flatten(full) + rest == words
    requires AllWords(words)
    ensures forall i :: 0 <= i < |full| ==> AllWords(full[i])
    ensures AllWords(rest)
    decreases |full|
  {
    if full == [] {
      assert rest == words;
    } else {
      var tail := Flatten(full[1..]) + rest;
      assert words == full[0] + tail;
      AllWordsConcat(full[0], tail);
      FlattenWords(full[1..], rest, tail);
      forall i | 0 < i < |full|
        ensures AllWords(full[i])
      {
        assert full[i] == full[1..][i - 1];
      }
    }
  }

  // ---------------------------------------------------------------------------
  // The element loop

  /** One iteration of the element loop (lines 37-65). */
  function Step(st: PackState, e: Element, count: Counter, maxTokens: int): PackState
  {
    var t := count(e.text);
    if t > maxTokens then
      st.(done := st.done + Parts(e, count, maxTokens))
    else if st.pendingCount + t <= maxTokens then
      st.(pending := st.pending + [e], pendingCount := st.pendingCount + t)
    else
      PackState(st.done + [Packed(st.pending)], [e], t)
  }

  /** The loop state after the elements `els`. */
  function Run(els: seq<Element>, count: Counter, maxTokens: int): PackState
  {
    if els == [] then PackState([], [], 0)
    else Step(Run(els[..|els| - 1], count, maxTokens), els[|els| - 1], count, maxTokens)
  }

  /** All pieces, including the final flush of line 67. */
  function Plan(els: seq<Element>, count: Counter, maxTokens: int): seq<Piece>
  {
    var st := Run(els, count, maxTokens);
    if st.pending == [] then st.done else st.done + [Packed(st.pending)]
  }

  function Render(p: Piece): Chunk
  {
    match p
    case Packed(ms) => Chunk(Join(" ", Texts(ms)), Join("\n", Htmls(ms)))
    case Part(ws, html) => Chunk(Join(" ", ws), html)
  }

  function RenderAll(ps: seq<Piece>): seq<Chunk>
  {
    seq(|ps|, i requires 0 <= i < |ps| => Render(ps[i]))
  }

  /** `chunk_elements(elements, max_tokens)`. */
  function Pack(els: seq<Element>, count: Counter, maxTokens: int): (chunks: seq<Chunk>)
    ensures els == [] ==> chunks == []
    ensures |chunks| == |Plan(els, count, maxTokens)|
  {
    RenderAll(Plan(els, count, maxTokens))
  }

  // ---------------------------------------------------------------------------
  // Provenance views

  /** Elements of the accumulator chunks, in emission order. */
  function Members(ps: seq<Piece>): seq<Element>
  {
    if ps == [] then [] else (if ps[0].Packed? then ps[0].members else []) + Members(ps[1..])
  }

  /** Sub-chunks cut from oversized elements, in emission order. */
  function PartsOf(ps: seq<Piece>): seq<Piece>
  {
    if ps == [] then [] else (if ps[0].Part? then [ps[0]] else []) + PartsOf(ps[1..])
  }

  /** The elements that fit the budget, in input order. */
  function FittingElements(els: seq<Element>, count: Counter, maxTokens: int): seq<Element>
  {
    if els == [] then []
    else
      var e := els[|els| - 1];
      FittingElements(els[..|els| - 1], count, maxTokens) + (if Fits(e, count, maxTokens) then [e] else [])
  }

  /** The sub-chunks of the oversized elements, element after element, in input order. */
  function OversizedParts(els: seq<Element>, count: Counter, maxTokens: int): seq<Piece>
  {
    if els == [] then []
    else
      var e := els[|els| - 1];
      OversizedParts(els[..|els| - 1], count, maxTokens) + (if Fits(e, count, maxTokens) then [] else Parts(e, count, maxTokens))
  }

  /** Each accumulator chunk is non-empty, its members all fit and their summed counts fit. */
  ghost predicate PackedWithinBudget(ps: seq<Piece>, count: Counter, maxTokens: int)
  {
    forall i :: 0 <= i < |ps| && ps[i].Packed? ==>
      && ps[i].members != []
      && SumCounts(ps[i].members, count) <= maxTokens
      && (forall j :: 0 <= j < |ps[i].members| ==> Fits(ps[i].members[j], count, maxTokens))
  }

  lemma {:induction false} MembersOfAppend(a: seq<Piece>, b: seq<Piece>)
    ensures Members(a + b) == Members(a) + Members(b)
    decreases |a|
  {
    if a == [] {
      assert a + b == b;
    } else {
      var t := a[1..] + b;
      assert (a + b)[0] == a[0] && (a + b)[1..] == t;
      MembersOfAppend(a[1..], b);
      var head := if a[0].Packed? then a[0].members else [];
      assert Members(a + b) == head + Members(t);
      assert Members(a) == head + Members(a[1..]);
    }
  }

  lemma {:induction false} PartsOfAppend(a: seq<Piece>, b: seq<Piece>)
    ensures PartsOf(a + b) == PartsOf(a) + PartsOf(b)
    decreases |a|
  {
    if a == [] {
      assert a + b == b;
    } else {
      var t := a[1..] + b;
      assert (a + b)[0] == a[0] && (a + b)[1..] == t;
      PartsOfAppend(a[1..], b);
      var head := if a[0].Part? then [a[0]] else [];
      assert PartsOf(a + b) == head + PartsOf(t);
      assert PartsOf(a) == head + PartsOf(a[1..]);
    }
  }

  /** Both provenance views distribute over concatenation. */
  lemma MembersAppend(a: seq<Piece>, b: seq<Piece>)
    ensures Members(a + b) == Members(a) + Members(b)
    ensures PartsOf(a + b) == PartsOf(a) + PartsOf(b)
  {
    MembersOfAppend(a, b);
    PartsOfAppend(a, b);
  }

  lemma {:induction false} OnlyParts(ps: seq<Piece>)
    requires forall i :: 0 <= i < |ps| ==> ps[i].Part?
    ensures Members(ps) == []
    ensures PartsOf(ps) == ps
    decreases |ps|
  {
    if ps != [] {
      OnlyParts(ps[1..]);
      assert ps == [ps[0]] + ps[1..];
    }
  }

  lemma PartsArePart(e: Element, count: Counter, maxTokens: int)
    ensures forall i :: 0 <= i < |Parts(e, count, maxTokens)| ==> Parts(e, count, maxTokens)[i].Part?
  {
  }

  /** What every state of the element loop satisfies after the elements `els`. */
  ghost predicate LoopInvariant(st: PackState, els: seq<Element>, count: Counter, maxTokens: int)
  {
    && st.pendingCount == SumCounts(st.pending, count)
    && (st.pending != [] ==> st.pendingCount <= maxTokens)
    && (forall j :: 0 <= j < |st.pending| ==> Fits(st.pending[j], count, maxTokens))
    && PackedWithinBudget(st.done, count, maxTokens)
    && Members(st.done) + st.pending == FittingElements(els, count, maxTokens)
    && PartsOf(st.done) == OversizedParts(els, count, maxTokens)
  }

  /** Appending sub-chunks leaves the accumulator chunks as they were. */
  lemma AppendPartsToDone(done: seq<Piece>, ps: seq<Piece>, count: Counter, maxTokens: int)
    requires forall i :: 0 <= i < |ps| ==> ps[i].Part?
    requires PackedWithinBudget(done, count, maxTokens)
    ensures PackedWithinBudget(done + ps, count, maxTokens)
    ensures Members(done + ps) == Members(done)
    ensures PartsOf(done + ps) == PartsOf(done) + ps
  {
    OnlyParts(ps);
    MembersAppend(done, ps);
    assert Members(done) + [] == Members(done);
    forall i | 0 <= i < |done + ps|
      ensures (done + ps)[i].Packed? ==> i < |done| && (done + ps)[i] == done[i]
    {
      if i >= |done| {
        assert (done + ps)[i] == ps[i - |done|];
      }
    }
  }

  lemma OversizedStepKeepsInvariant(st: PackState, els: seq<Element>, count: Counter, maxTokens: int)
    requires els != [] && !Fits(els[|els| - 1], count, maxTokens)
    requires LoopInvariant(st, els[..|els| - 1], count, maxTokens)
    ensures Step(st, els[|els| - 1], count, maxTokens) == st.(done := st.done + Parts(els[|els| - 1], count, maxTokens))
    ensures LoopInvariant(Step(st, els[|els| - 1], count, maxTokens), els, count, maxTokens)
  {
    var e := els[|els| - 1];
    var parts := Parts(e, count, maxTokens);
    assert Step(st, e, count, maxTokens) == st.(done := st.done + parts);
    PartsArePart(e, count, maxTokens);
    AppendPartsToDone(st.done, parts, count, maxTokens);
  }

  lemma AppendStepKeepsInvariant(st: PackState, els: seq<Element>, count: Counter, maxTokens: int)
    requires els != [] && Fits(els[|els| - 1], count, maxTokens)
    requires st.pendingCount + count(els[|els| - 1].text) <= maxTokens
    requires LoopInvariant(st, els[..|els| - 1], count, maxTokens)
    ensures LoopInvariant(Step(st, els[|els| - 1], count, maxTokens), els, count, maxTokens)
  {
    var e := els[|els| - 1];
    var st' := Step(st, e, count, maxTokens);
    assert st'.pending == st.pending + [e];
    assert (st.pending + [e])[..|st.pending|] == st.pending;
    assert Members(st'.done) + st'.pending == (Members(st.done) + st.pending) + [e];
  }

  lemma FlushStepKeepsInvariant(st: PackState, els: seq<Element>, count: Counter, maxTokens: int)
    requires els != [] && Fits(els[|els| - 1], count, maxTokens)
    requires st.pendingCount + count(els[|els| - 1].text) > maxTokens
    requires LoopInvariant(st, els[..|els| - 1], count, maxTokens)
    ensures st.pending != []
    ensures LoopInvariant(Step(st, els[|els| - 1], count, maxTokens), els, count, maxTokens)
  {
    var e := els[|els| - 1];
    var st' := Step(st, e, count, maxTokens);
    assert st' == PackState(st.done + [Packed(st.pending)], [e], count(e.text));
    MembersAppend(st.done, [Packed(st.pending)]);
    assert Members([Packed(st.pending)]) == st.pending;
    assert PartsOf([Packed(st.pending)]) == [];
    assert [e][..0] == [];
    assert SumCounts([e], count) == count(e.text);
    assert PackedWithinBudget(st'.done, count, maxTokens) by {
      forall i | 0 <= i < |st'.done| && st'.done[i].Packed?
        ensures st'.done[i].members != []
        ensures SumCounts(st'.done[i].members, count) <= maxTokens
        ensures forall j :: 0 <= j < |st'.done[i].members| ==> Fits(st'.done[i].members[j], count, maxTokens)
      {
        if i == |st.done| {
          assert st'.done[i] == Packed(st.pending);
        } else {
          assert st'.done[i] == st.done[i];
        }
      }
    }
  }

  /** `cur_token_count` stays within the budget and equals the summed counts of
      the pending elements; the flush of line 61 never emits an empty accumulator;
      fitting elements enter accumulator chunks in input order and oversized
      elements never touch the accumulator. */
  lemma {:induction false} RunKeepsInvariant(els: seq<Element>, count: Counter, maxTokens: int)
    ensures LoopInvariant(Run(els, count, maxTokens), els, count, maxTokens)
    decreases |els|
  {
    if els != [] {
      var prefix, e := els[..|els| - 1], els[|els| - 1];
      RunKeepsInvariant(prefix, count, maxTokens);
      var st := Run(prefix, count, maxTokens);
      if !Fits(e, count, maxTokens) {
        OversizedStepKeepsInvariant(st, els, count, maxTokens);
      } else if st.pendingCount + count(e.text) <= maxTokens {
        AppendStepKeepsInvariant(st, els, count, maxTokens);
      } else {
        FlushStepKeepsInvariant(st, els, count, maxTokens);
      }
    }
  }

  /** The packer's output, piece by piece: accumulator chunks are non-empty and
      within budget; their members are exactly the fitting elements, each once,
      in input order; the other chunks are exactly the sub-chunks of the
      oversized elements, in input order. */
  lemma PlanSpec(els: seq<Element>, count: Counter, maxTokens: int)
    ensures PackedWithinBudget(Plan(els, count, maxTokens), count, maxTokens)
    ensures Members(Plan(els, count, maxTokens)) == FittingElements(els, count, maxTokens)
    ensures PartsOf(Plan(els, count, maxTokens)) == OversizedParts(els, count, maxTokens)
  {
    var st := Run(els, count, maxTokens);
    RunKeepsInvariant(els, count, maxTokens);
    if st.pending != [] {
      MembersAppend(st.done, [Packed(st.pending)]);
      assert Members([Packed(st.pending)]) == st.pending;
      assert PartsOf([Packed(st.pending)]) == [];
    } else {
      assert Members(st.done) + [] == Members(st.done);
    }
  }

  /** An oversized element yields sub-chunks exactly when it has a word. */
  lemma PartsEmpty(e: Element, count: Counter, maxTokens: int)
    ensures Parts(e, count, maxTokens) == [] <==> Split(e.text) == []
  {
    var words := Split(e.text);
    var wg := Groups(words, [], count, maxTokens);
    GroupsIsGreedy(words, [], count, maxTokens);
    assert [] + words == words;
    if wg.full == [] && wg.rest == [] {
      assert Flatten(wg.full) == [];
      assert words == [];
    } else if wg.full != [] {
      assert |PartPieces(wg.full, e.html)| > 0;
    }
  }

  lemma {:induction false} FittingElementsEmpty(els: seq<Element>, count: Counter, maxTokens: int)
    ensures FittingElements(els, count, maxTokens) == [] <==>
      forall i :: 0 <= i < |els| ==> !Fits(els[i], count, maxTokens)
    decreases |els|
  {
    if els != [] {
      var prefix := els[..|els| - 1];
      FittingElementsEmpty(prefix, count, maxTokens);
      assert forall i :: 0 <= i < |prefix| ==> prefix[i] == els[i];
    }
  }

  lemma {:induction false} OversizedPartsEmpty(els: seq<Element>, count: Counter, maxTokens: int)
    ensures OversizedParts(els, count, maxTokens) == [] <==>
      forall i :: 0 <= i < |els| ==> Fits(els[i], count, maxTokens) || Split(els[i].text) == []
    decreases |els|
  {
    if els != [] {
      var prefix := els[..|els| - 1];
      OversizedPartsEmpty(prefix, count, maxTokens);
      PartsEmpty(els[|els| - 1], count, maxTokens);
      assert forall i :: 0 <= i < |prefix| ==> prefix[i] == els[i];
    }
  }

  /** Pieces whose accumulator chunks are non-empty are absent only when both
      provenance views are empty. */
  lemma PiecesEmpty(ps: seq<Piece>, count: Counter, maxTokens: int)
    requires PackedWithinBudget(ps, count, maxTokens)
    ensures ps == [] <==> Members(ps) == [] && PartsOf(ps) == []
  {
    if ps != [] {
      MembersAppend([ps[0]], ps[1..]);
      assert [ps[0]] + ps[1..] == ps;
    }
  }

  /** Packing yields no chunk exactly when every element is oversized and has
      no word. */
  lemma PackEmpty(els: seq<Element>, count: Counter, maxTokens: int)
    ensures Pack(els, count, maxTokens) == [] <==>
      forall i :: 0 <= i < |els| ==> !Fits(els[i], count, maxTokens) && Split(els[i].text) == []
  {
    PlanSpec(els, count, maxTokens);
    PiecesEmpty(Plan(els, count, maxTokens), count, maxTokens);
    FittingElementsEmpty(els, count, maxTokens);
    OversizedPartsEmpty(els, count, maxTokens);
  }

  /** `chunk_elements` chunk by chunk: an accumulator chunk joins the texts of a
      non-empty run of fitting elements with spaces and their htmls with line
      breaks, and these runs, in emission order, tile the fitting elements; every
      other chunk is a sub-chunk of an oversized element, with that element's
      html, and these come in input order. */
  lemma PackSpec(els: seq<Element>, count: Counter, maxTokens: int)
    ensures var plan := Plan(els, count, maxTokens);
      var chunks := Pack(els, count, maxTokens);
      && |chunks| == |plan|
      && (forall i :: 0 <= i < |plan| && plan[i].Packed? ==>
            && plan[i].members != []
            && chunks[i] == Chunk(Join(" ", Texts(plan[i].members)), Join("\n", Htmls(plan[i].members))))
      && (forall i :: 0 <= i < |plan| && plan[i].Part? ==> chunks[i] == Chunk(Join(" ", plan[i].words), plan[i].html))
      && Flatten(Runs(plan)) == FittingElements(els, count, maxTokens)
      && PartsOf(plan) == OversizedParts(els, count, maxTokens)
  {
    var plan := Plan(els, count, maxTokens);
    PlanSpec(els, count, maxTokens);
    MembersFlattenRuns(plan);
  }

  lemma RenderAllAppend(a: seq<Piece>, b: seq<Piece>)
    ensures RenderAll(a + b) == RenderAll(a) + RenderAll(b)
  {
  }

  // ---------------------------------------------------------------------------
  // The flush rule

  /** The members of the accumulator chunks, one run per chunk, in emission order. */
  function Runs(ps: seq<Piece>): seq<seq<Element>>
  {
    if ps == [] then [] else (if ps[0].Packed? then [ps[0].members] else []) + Runs(ps[1..])
  }

  /** The flush rule of lines 55-61: an accumulator is closed only when the next
      fitting element would take its summed count over the budget. */
  ghost predicate FlushedGreedily(runs: seq<seq<Element>>, count: Counter, maxTokens: int)
  {
    forall k :: 1 <= k < |runs| ==>
      runs[k] != [] && SumCounts(runs[k - 1], count) + count(runs[k][0].text) > maxTokens
  }

  /** Every run is non-empty and its summed count within the budget. */
  ghost predicate RunsWithinBudget(runs: seq<seq<Element>>, count: Counter, maxTokens: int)
  {
    forall k :: 0 <= k < |runs| ==> runs[k] != [] && SumCounts(runs[k], count) <= maxTokens
  }

  lemma {:induction false} RunsOfAppend(a: seq<Piece>, b: seq<Piece>)
    ensures Runs(a + b) == Runs(a) + Runs(b)
    decreases |a|
  {
    if a == [] {
      assert a + b == b;
    } else {
      var t := a[1..] + b;
      assert (a + b)[0] == a[0] && (a + b)[1..] == t;
      RunsOfAppend(a[1..], b);
      var head := if a[0].Packed? then [a[0].members] else [];
      assert Runs(a + b) == head + Runs(t);
      assert Runs(a) == head + Runs(a[1..]);
    }
  }

  lemma {:induction false} RunsOfParts(ps: seq<Piece>)
    requires forall i :: 0 <= i < |ps| ==> ps[i].Part?
    ensures Runs(ps) == []
    decreases |ps|
  {
    if ps != [] {
      RunsOfParts(ps[1..]);
    }
  }

  /** The members of the accumulator chunks are their runs laid end to end. */
  lemma {:induction false} MembersFlattenRuns(ps: seq<Piece>)
    ensures Members(ps) == Flatten(Runs(ps))
    decreases |ps|
  {
    if ps != [] {
      MembersFlattenRuns(ps[1..]);
      if ps[0].Packed? {
        var r := [ps[0].members] + Runs(ps[1..]);
        assert Runs(ps) == r;
        assert Members(ps) == ps[0].members + Members(ps[1..]);
        assert r[0] == ps[0].members && r[1..] == Runs(ps[1..]);
        assert Flatten(r) == r[0] + Flatten(r[1..]);
      } else {
        assert Runs(ps) == [] + Runs(ps[1..]) == Runs(ps[1..]);
        assert Members(ps) == [] + Members(ps[1..]) == Members(ps[1..]);
      }
    }
  }

  lemma {:induction false} RunsOfPackedWithinBudget(ps: seq<Piece>, count: Counter, maxTokens: int)
    requires PackedWithinBudget(ps, count, maxTokens)
    ensures RunsWithinBudget(Runs(ps), count, maxTokens)
    decreases |ps|
  {
    if ps != [] {
      assert PackedWithinBudget(ps[1..], count, maxTokens) by {
        forall i | 0 <= i < |ps[1..]| && ps[1..][i].Packed?
          ensures ps[1..][i].members != [] && SumCounts(ps[1..][i].members, count) <= maxTokens
          ensures forall j :: 0 <= j < |ps[1..][i].members| ==> Fits(ps[1..][i].members[j], count, maxTokens)
        {
          assert ps[1..][i] == ps[i + 1];
        }
      }
      RunsOfPackedWithinBudget(ps[1..], count, maxTokens);
      if ps[0].Packed? {
        var r := [ps[0].members] + Runs(ps[1..]);
        forall k | 0 <= k < |r|
          ensures r[k] != [] && SumCounts(r[k], count) <= maxTokens
        {
          if k > 0 {
            assert r[k] == Runs(ps[1..])[k - 1];
          }
        }
      }
    }
  }

  /** Closing a run that the last one could not absorb keeps the flush rule. */
  lemma CloseRun(runs: seq<seq<Element>>, p: seq<Element>, count: Counter, maxTokens: int)
    requires FlushedGreedily(runs, count, maxTokens)
    requires p != []
    requires runs != [] ==> SumCounts(runs[|runs| - 1], count) + count(p[0].text) > maxTokens
    ensures FlushedGreedily(runs + [p], count, maxTokens)
  {
    var r: seq<seq<Element>> := runs + [p];
    forall k | 1 <= k < |r|
      ensures r[k] != [] && SumCounts(r[k - 1], count) + count(r[k][0].text) > maxTokens
    {
      if k < |runs| {
        assert r[k] == runs[k] && r[k - 1] == runs[k - 1];
      } else {
        assert r[k] == p && r[k - 1] == runs[|runs| - 1];
      }
    }
  }

  /** What the element loop keeps about the runs it has closed: they follow the
      flush rule; no run is closed before a fitting element arrives; and the last
      closed run could not absorb the first pending element. */
  ghost predicate FlushInvariant(st: PackState, count: Counter, maxTokens: int)
  {
    var runs := Runs(st.done);
    && FlushedGreedily(runs, count, maxTokens)
    && (st.pending == [] ==> runs == [])
    && (st.pending != [] && runs != [] ==>
          SumCounts(runs[|runs| - 1], count) + count(st.pending[0].text) > maxTokens)
  }

  lemma OversizedStepKeepsFlushInvariant(st: PackState, e: Element, count: Counter, maxTokens: int)
    requires !Fits(e, count, maxTokens) && FlushInvariant(st, count, maxTokens)
    ensures FlushInvariant(Step(st, e, count, maxTokens), count, maxTokens)
  {
    var parts := Parts(e, count, maxTokens);
    assert Step(st, e, count, maxTokens) == st.(done := st.done + parts);
    PartsArePart(e, count, maxTokens);
    RunsOfParts(parts);
    RunsOfAppend(st.done, parts);
    assert Runs(st.done + parts) == Runs(st.done) + [];
  }

  lemma AppendStepKeepsFlushInvariant(st: PackState, e: Element, count: Counter, maxTokens: int)
    requires Fits(e, count, maxTokens) && st.pendingCount + count(e.text) <= maxTokens
    requires FlushInvariant(st, count, maxTokens)
    ensures FlushInvariant(Step(st, e, count, maxTokens), count, maxTokens)
  {
    assert Step(st, e, count, maxTokens).done == st.done;
    assert Step(st, e, count, maxTokens).pending == st.pending + [e];
    if st.pending != [] {
      assert (st.pending + [e])[0] == st.pending[0];
    }
  }

  lemma FlushStepKeepsFlushInvariant(st: PackState, e: Element, count: Counter, maxTokens: int)
    requires Fits(e, count, maxTokens) && st.pendingCount + count(e.text) > maxTokens
    requires st.pending != [] && st.pendingCount == SumCounts(st.pending, count)
    requires FlushInvariant(st, count, maxTokens)
    ensures FlushInvariant(Step(st, e, count, maxTokens), count, maxTokens)
  {
    var st' := Step(st, e, count, maxTokens);
    assert st' == PackState(st.done + [Packed(st.pending)], [e], count(e.text));
    RunsOfAppend(st.done, [Packed(st.pending)]);
    assert Runs([Packed(st.pending)]) == [st.pending];
    CloseRun(Runs(st.done), st.pending, count, maxTokens);
    var runs := Runs(st.done) + [st.pending];
    assert runs[|runs| - 1] == st.pending;
  }

  lemma {:induction false} RunKeepsFlushInvariant(els: seq<Element>, count: Counter, maxTokens: int)
    ensures FlushInvariant(Run(els, count, maxTokens), count, maxTokens)
    decreases |els|
  {
    if els != [] {
      var prefix, e := els[..|els| - 1], els[|els| - 1];
      RunKeepsFlushInvariant(prefix, count, maxTokens);
      var st := Run(prefix, count, maxTokens);
      if !Fits(e, count, maxTokens) {
        OversizedStepKeepsFlushInvariant(st, e, count, maxTokens);
      } else if st.pendingCount + count(e.text) <= maxTokens {
        AppendStepKeepsFlushInvariant(st, e, count, maxTokens);
      } else {
        RunKeepsInvariant(prefix, count, maxTokens);
        FlushStepKeepsInvariant(st, els, count, maxTokens);
        FlushStepKeepsFlushInvariant(st, e, count, maxTokens);
      }
    }
  }

  /** The accumulator chunks of the output: their runs tile the fitting elements
      in input order, each is non-empty and within budget, and each was closed
      only because the next fitting element did not fit. */
  lemma PlanRunsSpec(els: seq<Element>, count: Counter, maxTokens: int)
    ensures var runs := Runs(Plan(els, count, maxTokens));
      && Flatten(runs) == FittingElements(els, count, maxTokens)
      && RunsWithinBudget(runs, count, maxTokens)
      && FlushedGreedily(runs, count, maxTokens)
  {
    var st := Run(els, count, maxTokens);
    var plan := Plan(els, count, maxTokens);
    PlanSpec(els, count, maxTokens);
    MembersFlattenRuns(plan);
    RunsOfPackedWithinBudget(plan, count, maxTokens);
    RunKeepsFlushInvariant(els, count, maxTokens);
    if st.pending != [] {
      RunsOfAppend(st.done, [Packed(st.pending)]);
      assert Runs([Packed(st.pending)]) == [st.pending];
      CloseRun(Runs(st.done), st.pending, count, maxTokens);
    }
  }

  /** Summed counts only grow along a sequence. */
  lemma {:induction false} SumCountsPrefix(s: seq<Element>, n: nat, count: Counter)
    requires n <= |s|
    ensures SumCounts(s[..n], count) <= SumCounts(s, count)
    decreases |s|
  {
    if n < |s| {
      SumCountsPrefix(s[..|s| - 1], n, count);
      assert s[..|s| - 1][..n] == s[..n];
    } else {
      assert s[..n] == s;
    }
  }

  lemma FlattenOpensSecondRun(r: seq<seq<Element>>)
    requires |r| >= 2 && r[1] != []
    ensures |r[0]| < |Flatten(r)|
    ensures Flatten(r)[..|r[0]| + 1] == r[0] + [r[1][0]]
  {
    assert Flatten(r) == r[0] + Flatten(r[1..]);
    assert Flatten(r[1..]) == r[1] + Flatten(r[2..]);
  }

  /** Under the flush rule, the first run of one grouping is at least as long as
      the first run of any other grouping of the same elements within budget. */
  lemma FirstRunLongest(r1: seq<seq<Element>>, r2: seq<seq<Element>>, count: Counter, maxTokens: int)
    requires r1 != [] && r2 != [] && Flatten(r1) == Flatten(r2)
    requires RunsWithinBudget(r1, count, maxTokens) && RunsWithinBudget(r2, count, maxTokens)
    requires FlushedGreedily(r1, count, maxTokens)
    ensures |r2[0]| <= |r1[0]|
  {
    var a, b := r1[0], r2[0];
    if |a| < |b| {
      var f := Flatten(r1);
      assert f == b + Flatten(r2[1..]);
      assert f == a + Flatten(r1[1..]);
      assert r1[1..] != [];
      FlattenOpensSecondRun(r1);
      var x := r1[1][0];
      assert b[..|a| + 1] == a + [x];
      assert (a + [x])[..|a|] == a;
      assert SumCounts(b[..|a| + 1], count) == SumCounts(a, count) + count(x.text);
      SumCountsPrefix(b, |a| + 1, count);
      assert false;
    }
  }

  /** The flush rule, the budget and the tiling determine the runs: there is
      exactly one way to group the fitting elements that meets all three. */
  lemma {:induction false} GreedyRunsUnique(r1: seq<seq<Element>>, r2: seq<seq<Element>>, count: Counter, maxTokens: int)
    requires Flatten(r1) == Flatten(r2)
    requires RunsWithinBudget(r1, count, maxTokens) && RunsWithinBudget(r2, count, maxTokens)
    requires FlushedGreedily(r1, count, maxTokens) && FlushedGreedily(r2, count, maxTokens)
    ensures r1 == r2
    decreases |r1|
  {
    if r1 == [] && r2 == [] {
    } else if r1 == [] || r2 == [] {
      assert false;
    } else {
      FirstRunLongest(r1, r2, count, maxTokens);
      FirstRunLongest(r2, r1, count, maxTokens);
      var a := r1[0];
      assert Flatten(r1) == a + Flatten(r1[1..]);
      assert Flatten(r2) == r2[0] + Flatten(r2[1..]);
      assert r2[0] == Flatten(r2)[..|a|] == a;
      assert Flatten(r1[1..]) == Flatten(r1)[|a|..] == Flatten(r2[1..]);
      var t1, t2 := r1[1..], r2[1..];
      assert forall k :: 0 <= k < |t1| ==> t1[k] == r1[k + 1];
      assert forall k :: 0 <= k < |t2| ==> t2[k] == r2[k + 1];
      GreedyRunsUnique(t1, t2, count, maxTokens);
      assert r1 == [a] + t1 && r2 == [a] + t2;
    }
  }

  /** The accumulator chunks are the unique greedy grouping of the fitting
      elements: any grouping that tiles them, stays within budget and follows
      the flush rule is the packer's. */
  lemma PlanRunsUnique(els: seq<Element>, runs: seq<seq<Element>>, count: Counter, maxTokens: int)
    requires Flatten(runs) == FittingElements(els, count, maxTokens)
    requires RunsWithinBudget(runs, count, maxTokens) && FlushedGreedily(runs, count, maxTokens)
    ensures runs == Runs(Plan(els, count, maxTokens))
  {
    PlanRunsSpec(els, count, maxTokens);
    GreedyRunsUnique(runs, Runs(Plan(els, count, maxTokens)), count, maxTokens);
  }

  // ---------------------------------------------------------------------------
  // Where an oversized element's sub-chunks land

  lemma {:induction false} DoneGrows(els: seq<Element>, m: nat, n: nat, count: Counter, maxTokens: int)
    requires m <= n <= |els|
    ensures Run(els[..m], count, maxTokens).done <= Run(els[..n], count, maxTokens).done
    decreases n
  {
    if m < n {
      DoneGrows(els, m, n - 1, count, maxTokens);
      assert els[..n][..n - 1] == els[..n - 1];
      var st := Run(els[..n - 1], count, maxTokens);
      assert Run(els[..n], count, maxTokens) == Step(st, els[n - 1], count, maxTokens);
      assert st.done <= Run(els[..n], count, maxTokens).done;
    }
  }

  lemma {:induction false} FittingGrows(els: seq<Element>, m: nat, n: nat, count: Counter, maxTokens: int)
    requires m <= n <= |els|
    ensures FittingElements(els[..m], count, maxTokens) <= FittingElements(els[..n], count, maxTokens)
    decreases n
  {
    if m < n {
      FittingGrows(els, m, n - 1, count, maxTokens);
      assert els[..n][..n - 1] == els[..n - 1];
    }
  }

  lemma OversizedHeadIsPrefix(els: seq<Element>, m: nat, count: Counter, maxTokens: int)
    requires m < |els| && !Fits(els[m], count, maxTokens)
    ensures Run(els[..m], count, maxTokens).done + Parts(els[m], count, maxTokens) <= Plan(els, count, maxTokens)
  {
    assert els[..m + 1][..m] == els[..m];
    DoneGrows(els, m + 1, |els|, count, maxTokens);
    assert els[..|els|] == els;
  }

  lemma PendingFollowsDone(els: seq<Element>, m: nat, count: Counter, maxTokens: int)
    requires m <= |els|
    ensures var before := Run(els[..m], count, maxTokens);
      Members(before.done) + before.pending <= FittingElements(els, count, maxTokens)
  {
    RunKeepsInvariant(els[..m], count, maxTokens);
    FittingGrows(els, m, |els|, count, maxTokens);
    assert els[..|els|] == els;
  }

  lemma PrefixCancel<T>(a: seq<T>, b: seq<T>, c: seq<T>, f: seq<T>)
    requires f == a + c && a + b <= f
    ensures b <= c
  {
    assert b == f[|a|..|a| + |b|];
  }

  lemma MembersAfterOversized(els: seq<Element>, m: nat, count: Counter, maxTokens: int)
    requires m < |els| && !Fits(els[m], count, maxTokens)
    ensures var before := Run(els[..m], count, maxTokens);
      var k := |before.done| + |Parts(els[m], count, maxTokens)|;
      && k <= |Plan(els, count, maxTokens)|
      && Members(before.done) + Members(Plan(els, count, maxTokens)[k..]) == FittingElements(els, count, maxTokens)
  {
    var before := Run(els[..m], count, maxTokens);
    var parts := Parts(els[m], count, maxTokens);
    var plan := Plan(els, count, maxTokens);
    var head := before.done + parts;
    OversizedHeadIsPrefix(els, m, count, maxTokens);
    var rest := plan[|head|..];
    assert plan == head + rest;
    MembersAppend(head, rest);
    PartsArePart(els[m], count, maxTokens);
    OnlyParts(parts);
    MembersAppend(before.done, parts);
    assert Members(head) == Members(before.done);
    PlanSpec(els, count, maxTokens);
    assert Members(plan) == Members(before.done) + Members(rest);
  }

  /** For any element over the budget: its sub-chunks follow exactly the chunks
      flushed before it arrived, and the elements still pending when it arrived
      open the accumulator chunks emitted after those sub-chunks. */
  lemma OversizedPlacement(els: seq<Element>, m: nat, count: Counter, maxTokens: int)
    requires m < |els| && !Fits(els[m], count, maxTokens)
    ensures var before := Run(els[..m], count, maxTokens);
      var k := |before.done| + |Parts(els[m], count, maxTokens)|;
      && before.done + Parts(els[m], count, maxTokens) <= Plan(els, count, maxTokens)
      && before.pending <= Members(Plan(els, count, maxTokens)[k..])
  {
    var before := Run(els[..m], count, maxTokens);
    var k := |before.done| + |Parts(els[m], count, maxTokens)|;
    var plan := Plan(els, count, maxTokens);
    OversizedHeadIsPrefix(els, m, count, maxTokens);
    MembersAfterOversized(els, m, count, maxTokens);
    PendingFollowsDone(els, m, count, maxTokens);
    PrefixCancel(Members(before.done), before.pending, Members(plan[k..]), FittingElements(els, count, maxTokens));
  }

  // ---------------------------------------------------------------------------
  // Concrete consequences of following the code

  /** An oversized element is split before the accumulator is flushed, so its
      sub-chunks come out ahead of an earlier element that is still pending. */
  lemma OversizedOvertakesPending(small: Element, big: Element, count: Counter, maxTokens: int)
    requires Fits(small, count, maxTokens) && !Fits(big, count, maxTokens)
    ensures Plan([small, big], count, maxTokens) == Parts(big, count, maxTokens) + [Packed([small])]
  {
    assert [small, big][..1] == [small];
    assert [small][..0] == [];
    assert Run([], count, maxTokens) == PackState([], [], 0);
    assert [] + [small] == [small];
    assert Run([small], count, maxTokens) == PackState([], [small], count(small.text));
    assert Run([small, big], count, maxTokens) == PackState(Parts(big, count, maxTokens), [small], count(small.text));
  }

  /** Three elements of 120, 150 and 200 tokens under a budget of 250 give three
      chunks of one element each. */
  lemma ThreeElementScenario(e1: Element, e2: Element, e3: Element, count: Counter)
    requires count(e1.text) == 120 && count(e2.text) == 150 && count(e3.text) == 200
    ensures Plan([e1, e2, e3], count, 250) == [Packed([e1]), Packed([e2]), Packed([e3])]
  {
    assert [e1, e2, e3][..2] == [e1, e2];
    assert [e1, e2][..1] == [e1];
    assert [e1][..0] == [];
    assert Run([e1], count, 250) == PackState([], [e1], 120);
    assert Run([e1, e2], count, 250) == PackState([Packed([e1])], [e2], 150);
    assert Run([e1, e2, e3], count, 250) == PackState([Packed([e1]), Packed([e2])], [e3], 200);
  }

  /** Elements with blank text are not skipped: a lone one becomes a chunk
      with empty text. */
  lemma BlankElementIsPacked(html: string, count: Counter, maxTokens: int)
    requires count("") <= maxTokens
    ensures Pack([Element("", html)], count, maxTokens) == [Chunk("", html)]
  {
    var e := Element("", html);
    assert [e][..0] == [];
    assert Run([], count, maxTokens) == PackState([], [], 0);
    assert [] + [e] == [e];
    assert Run([e], count, maxTokens) == PackState([], [e], count(""));
    assert Texts([e]) == [""] && Htmls([e]) == [html];
  }

  lemma SplitTwoWords()
    ensures Split("a b") == ["a", "b"]
  {
    assert "a b"[1..] == " b" && " b"[1..] == "b" && "b"[1..] == "";
    assert "" + ['a'] == "a" && "" + ['b'] == "b";
  }

  lemma GroupsTwoWords(count: Counter)
    requires count("a b") == 6 && count("a") == 3
    ensures Groups(["a", "b"], [], count, 5) == WordGroups([["a", "b"]], [])
  {
    assert Join(" ", ["a"]) == "a";
    assert Join(" ", ["a", "b"]) == "a b";
    assert ["a"] + ["b"] == ["a", "b"];
    assert Groups(["b"], ["a"], count, 5) == WordGroups([["a", "b"]], []);
    assert ["a", "b"][1..] == ["b"] && [] + ["a"] == ["a"];
  }

  /** A group is emitted once it reaches the budget, not before the word that
      overflows it: with a budget of 5, two 3-token words joining to 6 tokens
      leave as one 6-token chunk although each word fits alone. */
  lemma SubChunkCanExceedBudget(count: Counter)
    requires count("a b") == 6 && count("a") == 3 && count("b") == 3
    ensures Pack([Element("a b", "<p>")], count, 5) == [Chunk("a b", "<p>")]
  {
    var e := Element("a b", "<p>");
    SplitTwoWords();
    GroupsTwoWords(count);
    assert Parts(e, count, 5) == [Part(["a", "b"], "<p>")];
    assert [e][..0] == [];
    assert Run([e], count, 5) == PackState([Part(["a", "b"], "<p>")], [], 0);
    assert Join(" ", ["a", "b"]) == "a b";
  }

  // ---------------------------------------------------------------------------
  // The source's loops

  /** The chunks rendered from a split word list. */
  function Emit(wg: WordGroups, html: string): seq<Chunk>
  {
    RenderAll(GroupPieces(wg, html))
  }

  lemma EmitFullGroup(g: seq<string>, wg: WordGroups, html: string)
    ensures Emit(WordGroups([g] + wg.full, wg.rest), html) == [Chunk(Join(" ", g), html)] + Emit(wg, html)
  {
    assert PartPieces([g] + wg.full, html) == [Part(g, html)] + PartPieces(wg.full, html);
  }

  /** One turn of the word loop, as the functional model sees it. */
  lemma GroupsUnfold(words: seq<string>, i: nat, cur: seq<string>, count: Counter, maxTokens: int)
    requires i < |words|
    ensures var grown := cur + [words[i]];
      Groups(words[i..], cur, count, maxTokens) ==
        if count(Join(" ", grown)) >= maxTokens then
          WordGroups([grown] + Groups(words[i + 1..], [], count, maxTokens).full,
                     Groups(words[i + 1..], [], count, maxTokens).rest)
        else Groups(words[i + 1..], grown, count, maxTokens)
  {
    assert words[i..][0] == words[i] && words[i..][1..] == words[i + 1..];
  }

  /** The word loop of lines 42-52, as written. */
  method SplitOversized(e: Element, count: Counter, maxTokens: int) returns (subs: seq<Chunk>)
    ensures subs == RenderAll(Parts(e, count, maxTokens))
  {
    var words := Split(e.text);
    ghost var all := Emit(Groups(words, [], count, maxTokens), e.html);
    var cur: seq<string> := [];
    subs := [];
    var i := 0;
    assert words[0..] == words;
    while i < |words|
      invariant 0 <= i <= |words|
      invariant subs + Emit(Groups(words[i..], cur, count, maxTokens), e.html) == all
    {
      GroupsUnfold(words, i, cur, count, maxTokens);
      cur := cur + [words[i]];
      var tokC := count(Join(" ", cur));
      if tokC >= maxTokens {
        EmitFullGroup(cur, Groups(words[i + 1..], [], count, maxTokens), e.html);
        subs := subs + [Chunk(Join(" ", cur), e.html)];
        cur := [];
      }
      i := i + 1;
    }
    assert Emit(Groups(words[i..], cur, count, maxTokens), e.html)
        == (if cur == [] then [] else [Chunk(Join(" ", cur), e.html)]);
    if |cur| > 0 {
      subs := subs + [Chunk(Join(" ", cur), e.html)];
    }
  }

  lemma TextsAppend(els: seq<Element>, e: Element)
    ensures Texts(els + [e]) == Texts(els) + [e.text]
    ensures Htmls(els + [e]) == Htmls(els) + [e.html]
  {
  }

  /** `chunk_elements` as written: one pass with an accumulator of texts,
      htmls and a running token count. */
  method ChunkElements(elements: seq<Element>, count: Counter, maxTokens: int) returns (chunks: seq<Chunk>)
    ensures chunks == Pack(elements, count, maxTokens)
  {
    chunks := [];
    var curTexts: seq<string> := [];
    var curHtmls: seq<string> := [];
    var curTokenCount: nat := 0;
    ghost var st := PackState([], [], 0);
    var i := 0;
    while i < |elements|
      invariant 0 <= i <= |elements|
      invariant st == Run(elements[..i], count, maxTokens)
      invariant chunks == RenderAll(st.done)
      invariant curTexts == Texts(st.pending) && curHtmls == Htmls(st.pending)
      invariant curTokenCount == st.pendingCount
    {
      var el := elements[i];
      assert elements[..i + 1][..i] == elements[..i];
      ghost var next := Step(st, el, count, maxTokens);
      assert Run(elements[..i + 1], count, maxTokens) == next;
      var tcount := count(el.text);
      if tcount > maxTokens {
        var subs := SplitOversized(el, count, maxTokens);
        assert next == st.(done := st.done + Parts(el, count, maxTokens));
        RenderAllAppend(st.done, Parts(el, count, maxTokens));
        chunks := chunks + subs;
      } else if curTokenCount + tcount <= maxTokens {
        TextsAppend(st.pending, el);
        assert next == st.(pending := st.pending + [el], pendingCount := st.pendingCount + tcount);
        curTexts := curTexts + [el.text];
        curHtmls := curHtmls + [el.html];
        curTokenCount := curTokenCount + tcount;
      } else {
        RenderAllAppend(st.done, [Packed(st.pending)]);
        assert next == PackState(st.done + [Packed(st.pending)], [el], tcount);
        assert Texts([el]) == [el.text] && Htmls([el]) == [el.html];
        chunks := chunks + [Chunk(Join(" ", curTexts), Join("\n", curHtmls))];
        curTexts := [el.text];
        curHtmls := [el.html];
        curTokenCount := tcount;
      }
      st := next;
      i := i + 1;
    }
    assert elements[..i] == elements;
    if |curTexts| > 0 {
      RenderAllAppend(st.done, [Packed(st.pending)]);
      chunks := chunks + [Chunk(Join(" ", curTexts), Join("\n", curHtmls))];
    }
  }
}
