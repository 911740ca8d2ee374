/**
 The context injected into a chat: retrieved fragments and their origin hints travel in two parallel
 lists that are padded, sliced and cut to token budgets section by section.
 */
module ContextFit {
  import opened Options
  import opened Text

  /** A retrieved excerpt: its text and the origin recorded for it. */
  datatype Hit = Hit(text: string, origin: string)

  type Hint = Option<string>

  datatype Piece = Piece(text: string, hint: Hint)

  datatype Budgets = Budgets(session: int, documents: int, entities: int)

  // ---------- fitting one section ----------

  /** Estimated tokens of a section; empty fragments cost nothing. */
  function Cost(fragments: seq<string>, estimate: string -> nat): nat {
    if fragments == [] then 0
    else
      var last := fragments[|fragments| - 1];
      Cost(fragments[..|fragments| - 1], estimate) + if last == "" then 0 else estimate(last)
  }

  /** The cost of a list is the sum of its fragments' costs. */
  lemma {:induction false} CostIsSum(xs: seq<string>, ys: seq<string>, estimate: string -> nat)
    ensures Cost(xs + ys, estimate) == Cost(xs, estimate) + Cost(ys, estimate)
    ensures forall x :: Cost([x], estimate) == if x == "" then 0 else estimate(x)
  {
    if ys == [] {
      assert xs + ys == xs;
    } else {
      assert (xs + ys)[..|xs + ys| - 1] == xs + ys[..|ys| - 1];
      CostIsSum(xs, ys[..|ys| - 1], estimate);
    }
    forall x
      ensures Cost([x], estimate) == if x == "" then 0 else estimate(x)
    {
      assert [x][..0] == [];
    }
  }

  lemma {:induction false} CostGrows(fragments: seq<string>, k: nat, estimate: string -> nat)
    requires k <= |fragments|
    ensures Cost(fragments[..k], estimate) <= Cost(fragments, estimate)
  {
    if k < |fragments| {
      assert fragments[..|fragments| - 1][..k] == fragments[..k];
      CostGrows(fragments[..|fragments| - 1], k, estimate);
    } else {
      assert fragments[..k] == fragments;
    }
  }

  /** `k` is the length of the longest prefix within the budget: the prefixes that fit are those up to it. */
  ghost predicate Fits(fragments: seq<string>, budget: int, estimate: string -> nat, k: nat) {
    && k <= |fragments|
    && (budget <= 0 ==> k == 0)
    && (budget > 0 ==>
          forall n | 0 <= n <= |fragments| :: Cost(fragments[..n], estimate) <= budget <==> n <= k)
  }

  /** There is one such length, and a larger budget never keeps less. */
  lemma FitsGrows(fragments: seq<string>, small: int, large: int, estimate: string -> nat, k: nat, n: nat)
    requires small <= large
    requires Fits(fragments, small, estimate, k) && Fits(fragments, large, estimate, n)
    ensures k <= n && (small == large ==> k == n)
  {
    hide Cost;
    if small > 0 {
      assert Cost(fragments[..k], estimate) <= small;
      assert Cost(fragments[..n], estimate) <= large;
    }
  }

  /** A prefix within the budget such that no longer one is makes all shorter ones fit. */
  lemma LongestFits(fragments: seq<string>, budget: int, estimate: string -> nat, k: nat)
    requires k <= |fragments| && budget > 0 && Cost(fragments[..k], estimate) <= budget
    requires forall n | k < n <= |fragments| :: Cost(fragments[..n], estimate) > budget
    ensures Fits(fragments, budget, estimate, k)
  {
    forall n | 0 <= n <= k
      ensures Cost(fragments[..n], estimate) <= budget
    {
      assert fragments[..k][..n] == fragments[..n];
      CostGrows(fragments[..k], n, estimate);
    }
  }

  /** Hints cut or padded to a length. */
  function Padded(hints: seq<Hint>, n: nat): (r: seq<Hint>)
    ensures |r| == n
    ensures forall i | 0 <= i < n :: r[i] == if i < |hints| then hints[i] else None
  {
    seq(n, i requires 0 <= i < n => if i < |hints| then hints[i] else None)
  }

  method FitPlaintextBundle(fragments: seq<string>, hints: seq<Hint>, maxTokens: int, estimate: string -> nat)
    returns (fr: seq<string>, h: seq<Hint>)
    ensures |h| == |fr| <= |fragments|
    ensures Fits(fragments, maxTokens, estimate, |fr|)
    ensures fr == fragments[..|fr|] && h == Padded(hints, |fragments|)[..|fr|]
  {
    hide Cost;
    fr, h := fragments, hints;
    if maxTokens <= 0 {
      return [], [];
    }
    while |h| < |fr|
      invariant |hints| <= |h| && (|h| == |hints| || |h| <= |fr|)
      invariant forall i | 0 <= i < |h| :: h[i] == if i < |hints| then hints[i] else None
    {
      h := h + [None];
    }
    while |h| > |fr|
      invariant |h| >= |fr|
      invariant forall i | 0 <= i < |h| :: h[i] == if i < |hints| then hints[i] else None
    {
      h := h[..|h| - 1];
    }
    assert h == Padded(hints, |fragments|);
    assert fragments[..|fr|] == fr && h[..|fr|] == h;
    while fr != [] && Cost(fr, estimate) > maxTokens
      invariant |fr| <= |fragments| && fr == fragments[..|fr|]
      invariant h == Padded(hints, |fragments|)[..|fr|]
      invariant forall n | |fr| < n <= |fragments| :: Cost(fragments[..n], estimate) > maxTokens
    {
      fr := fr[..|fr| - 1];
      if h != [] {
        h := h[..|h| - 1];
      }
    }
    assert Cost([], estimate) == 0 by { NothingIsFree(estimate); }
    LongestFits(fragments, maxTokens, estimate, |fr|);
  }

  lemma NothingIsFree(estimate: string -> nat)
    ensures Cost([], estimate) == 0
  {
  }

  // ---------- retrieval ----------

  /** The non-blank hits, stripped, each with its own origin. */
  function Pieces(hits: seq<Hit>): seq<Piece> {
    if hits == [] then []
    else
      var front, last := Pieces(hits[..|hits| - 1]), hits[|hits| - 1];
      if Strip(last.text) == "" then front else front + [Piece(Strip(last.text), Some(last.origin))]
  }

  lemma PiecesSnoc(hits: seq<Hit>, last: Hit)
    ensures Pieces(hits + [last]) == Pieces(hits) +
              if Strip(last.text) == "" then [] else [Piece(Strip(last.text), Some(last.origin))]
  {
    hide Strip;
    assert (hits + [last])[..|hits|] == hits;
  }

  /** Hit by hit: a blank text gives nothing, any other its stripped text with its own origin. */
  lemma {:induction false} PiecesAre(xs: seq<Hit>, ys: seq<Hit>)
    ensures Pieces(xs + ys) == Pieces(xs) + Pieces(ys)
    ensures forall hit :: Pieces([hit]) ==
              if Strip(hit.text) == "" then [] else [Piece(Strip(hit.text), Some(hit.origin))]
  {
    hide Strip, Pieces;
    NoPieces();
    if ys == [] {
      assert xs + ys == xs;
    } else {
      var front, last := ys[..|ys| - 1], ys[|ys| - 1];
      PiecesAre(xs, front);
      PiecesSnoc(front, last);
      PiecesSnoc(xs + front, last);
      assert ys == front + [last] && xs + ys == xs + front + [last];
    }
    forall hit: Hit
      ensures Pieces([hit]) == if Strip(hit.text) == "" then [] else [Piece(Strip(hit.text), Some(hit.origin))]
    {
      PiecesSnoc([], hit);
      assert [] + [hit] == [hit];
    }
  }

  lemma NoPieces()
    ensures Pieces([]) == []
  {
  }

  function Texts(pieces: seq<Piece>): (r: seq<string>)
    ensures |r| == |pieces| && forall i | 0 <= i < |r| :: r[i] == pieces[i].text
  {
    seq(|pieces|, i requires 0 <= i < |pieces| => pieces[i].text)
  }

  function Hints(pieces: seq<Piece>): (r: seq<Hint>)
    ensures |r| == |pieces| && forall i | 0 <= i < |r| :: r[i] == pieces[i].hint
  {
    seq(|pieces|, i requires 0 <= i < |pieces| => pieces[i].hint)
  }

  method AppendHits(hits: seq<Hit>, fragments: seq<string>, hints: seq<Hint>)
    returns (fr: seq<string>, h: seq<Hint>)
    ensures fr == fragments + Texts(Pieces(hits)) && h == hints + Hints(Pieces(hits))
  {
    hide Strip;
    fr, h := fragments, hints;
    for i := 0 to |hits|
      invariant fr == fragments + Texts(Pieces(hits[..i])) && h == hints + Hints(Pieces(hits[..i]))
    {
      assert hits[..i + 1][..i] == hits[..i] && hits[..i + 1][i] == hits[i];
      var stripped := Strip(hits[i].text);
      if stripped != "" {
        fr := fr + [stripped];
        h := h + [Some(hits[i].origin)];
      }
    }
    assert hits[..|hits|] == hits;
  }

  // ---------- the whole bundle ----------

  /** Python's `xs[from:to]`, which clamps both bounds. */
  function Slice<T>(xs: seq<T>, from: nat, to: nat): seq<T> {
    var j := if to < |xs| then to else |xs|;
    var i := if from < j then from else j;
    xs[i..j]
  }

  /** Tokens each document excerpt may take: an equal share of the budget, at least 8. */
  function Share(budget: int, count: nat): int
    requires count > 0
  {
    if budget / count < 8 then 8 else budget / count
  }

  /** The largest share that the budget holds `count` times, but never less than 8. */
  lemma ShareIs(budget: int, count: nat)
    requires count > 0
    ensures var share := Share(budget, count);
            && share >= 8 && (share > 8 ==> share * count <= budget) && budget < (share + 1) * count
  {
    assert budget == budget / count * count + budget % count;
    if budget / count < 8 {
      assert budget / count * count <= 7 * count;
    }
  }

  /** Every document text is cut to the share, or none when there is no budget for documents. */
  lemma ShortenedTexts(documents: seq<Piece>, budget: int, truncate: (string, int) -> string, i: nat)
    requires i < |documents|
    ensures Shortened(documents, budget, truncate)[i].text ==
            if budget <= 0 then documents[i].text
            else truncate(documents[i].text, Share(budget, |documents|))
  {
    hide Share;
  }

  /** Element by element, with both bounds cut to the length. */
  lemma SliceIs<T>(xs: seq<T>, from: nat, to: nat)
    ensures from <= to <= |xs| ==> Slice(xs, from, to) == xs[from..to]
    ensures from <= |xs| < to ==> Slice(xs, from, to) == xs[from..]
    ensures from >= to || from >= |xs| ==> Slice(xs, from, to) == []
  {
  }

  function Shortened(documents: seq<Piece>, budget: int, truncate: (string, int) -> string): (r: seq<Piece>)
    ensures |r| == |documents| && forall i | 0 <= i < |r| :: r[i].hint == documents[i].hint
  {
    if documents == [] || budget <= 0 then documents
    else
      var share := Share(budget, |documents|);
      seq(|documents|, i requires 0 <= i < |documents| =>
            Piece(truncate(documents[i].text, share), documents[i].hint))
  }

  /** What the hooks see: session memory first, then the shortened documents. */
  function Retrieved(session: seq<Hit>, documents: seq<Hit>, budgets: Budgets, truncate: (string, int) -> string)
    : seq<Piece>
  {
    Pieces(session) + Shortened(Pieces(documents), budgets.documents, truncate)
  }

  /** Both lists cut to the same prefix of a section. */
  ghost predicate Section(texts: seq<string>, hints: seq<Hint>, all: seq<string>, allHints: seq<Hint>,
                          budget: int, estimate: string -> nat) {
    && Fits(all, budget, estimate, |texts|)
    && texts == all[..|texts|] && hints == Padded(allHints, |all|)[..|texts|]
  }

  method ShortenInPlace(fragments: seq<string>, ghost session: seq<Piece>, ghost documents: seq<Piece>,
                        from: nat, budget: int, truncate: (string, int) -> string)
    returns (fr: seq<string>)
    requires fragments == Texts(session) + Texts(documents) && from == |session|
    ensures fr == Texts(session) + Texts(Shortened(documents, budget, truncate))
  {
    hide Share;
    fr := fragments;
    var count := |fragments| - from;
    if count > 0 && budget > 0 {
      var share := Share(budget, count);
      for i := from to |fragments|
        invariant |fr| == |fragments| && fr[..from] == Texts(session)
        invariant forall k | from <= k < i :: fr[k] == truncate(fragments[k], share)
        invariant forall k | i <= k < |fr| :: fr[k] == fragments[k]
      {
        fr := fr[i := truncate(fr[i], share)];
      }
      assert fr == fr[..from] + Texts(Shortened(documents, budget, truncate));
    }
  }

  lemma RetrievedSplits(session: seq<Hit>, documents: seq<Hit>, budgets: Budgets, truncate: (string, int) -> string)
    ensures var pieces := Retrieved(session, documents, budgets, truncate);
            && Texts(pieces) == Texts(Pieces(session))
                                + Texts(Shortened(Pieces(documents), budgets.documents, truncate))
            && Hints(pieces) == Hints(Pieces(session)) + Hints(Pieces(documents))
  {
    hide Pieces, Shortened;
  }

  datatype Bundle = Bundle(texts: seq<string>, hints: seq<Hint>)

  /**
   The two lists before they are cut. `hook` stands for the listeners, which may change the list of
   fragments but never see the hints; `graph` for the fragments the graph service returns.
   */
  function Assembled(pieces: seq<Piece>, hook: seq<string> -> seq<string>, graph: seq<string>): Bundle {
    var hooked := hook(Texts(pieces));
    Bundle(hooked + graph,
           Padded(Hints(pieces), if |pieces| < |hooked| then |hooked| else |pieces|) + Padded([], |graph|))
  }

  lemma PaddedWhole(hints: seq<Hint>)
    ensures Padded(hints, |hints|) == hints
  {
  }

  lemma PaddedMore(hints: seq<Hint>, n: nat)
    requires |hints| <= n
    ensures Padded(hints, n) + [None] == Padded(hints, n + 1)
  {
  }

  method Assemble(session: seq<Hit>, documents: seq<Hit>, hook: seq<string> -> seq<string>, graph: seq<string>,
                  budgets: Budgets, truncate: (string, int) -> string)
    returns (fr: seq<string>, h: seq<Hint>, n: nat, d: nat)
    ensures Bundle(fr, h) == Assembled(Retrieved(session, documents, budgets, truncate), hook, graph)
    ensures n == |Pieces(session)| && d == n + |Pieces(documents)|
  {
    hide Strip, Pieces, Retrieved, Shortened, Padded, Texts;
    fr, h := AppendHits(session, [], []);
    n := |fr|;
    fr, h := AppendHits(documents, fr, h);
    d := |fr|;
    fr := ShortenInPlace(fr, Pieces(session), Pieces(documents), n, budgets.documents, truncate);
    ghost var pieces := Retrieved(session, documents, budgets, truncate);
    RetrievedSplits(session, documents, budgets, truncate);
    fr := hook(fr);
    PaddedWhole(Hints(pieces));
    while |h| < |fr|
      invariant |h| >= |pieces| && (|h| == |pieces| || |h| <= |fr|)
      invariant h == Padded(Hints(pieces), |h|)
    {
      PaddedMore(Hints(pieces), |h|);
      h := h + [None];
    }
    ghost var before := h;
    ghost var hooked := fr;
    PaddedWhole([]);
    assert hooked + graph[..0] == hooked && before + [] == before;
    for i := 0 to |graph|
      invariant fr == hooked + graph[..i] && h == before + Padded([], i)
    {
      PaddedMore([], i);
      assert before + Padded([], i) + [None] == before + (Padded([], i) + [None]);
      fr := fr + [graph[i]];
      h := h + [None];
    }
    assert graph[..|graph|] == graph;
  }

  /** The three sections, each cut to its budget, in their order. */
  method BuildInjectedContext(session: seq<Hit>, documents: seq<Hit>, hook: seq<string> -> seq<string>,
                              graph: seq<string>, budgets: Budgets, estimate: string -> nat,
                              truncate: (string, int) -> string)
    returns (fragments: seq<string>, hints: seq<Hint>, ghost k: nat, ghost l: nat)
    ensures k <= l <= |fragments| && |hints| == |fragments|
    ensures var b := Assembled(Retrieved(session, documents, budgets, truncate), hook, graph);
            var n := |Pieces(session)|;
            var d := n + |Pieces(documents)|;
            && Section(fragments[..k], hints[..k], Slice(b.texts, 0, n), Slice(b.hints, 0, n),
                       budgets.session, estimate)
            && Section(fragments[k..l], hints[k..l], Slice(b.texts, n, d), Slice(b.hints, n, d),
                       budgets.documents, estimate)
            && Section(fragments[l..], hints[l..], Slice(b.texts, d, |b.texts|), Slice(b.hints, d, |b.hints|),
                       budgets.entities, estimate)
  {
    hide Pieces, Retrieved, Assembled, Fits, Slice;
    var fr, h, n, d := Assemble(session, documents, hook, graph, budgets, truncate);
    var sf, sh := FitPlaintextBundle(Slice(fr, 0, n), Slice(h, 0, n), budgets.session, estimate);
    var df, dh := FitPlaintextBundle(Slice(fr, n, d), Slice(h, n, d), budgets.documents, estimate);
    var gf, gh := FitPlaintextBundle(Slice(fr, d, |fr|), Slice(h, d, |h|), budgets.entities, estimate);
    k, l := |sf|, |sf| + |df|;
    fragments, hints := sf + df + gf, sh + dh + gh;
    assert fragments[..k] == sf && fragments[k..l] == df && fragments[l..] == gf;
    assert hints[..k] == sh && hints[k..l] == dh && hints[l..] == gh;
  }

  // ---------- which listeners keep fragments and hints together ----------

  /** Every text that stands where a piece was is the text of that piece. */
  predicate InPlace(pieces: seq<Piece>, texts: seq<string>) {
    forall i | 0 <= i < |pieces| && i < |texts| :: texts[i] == pieces[i].text
  }

  /** Whatever the budget and the estimates, the kept texts of a section are those its hints were made for. */
  ghost predicate AlwaysInPlace(pieces: seq<Piece>, all: seq<string>) {
    forall budget: int, estimate: string -> nat, k: nat | Fits(all, budget, estimate, k) :: InPlace(pieces, all[..k])
  }

  lemma AlwaysInPlaceIff(pieces: seq<Piece>, all: seq<string>)
    ensures AlwaysInPlace(pieces, all) <==> InPlace(pieces, all)
  {
    var free: string -> nat := s => 0;
    FreeFits(all, free);
    assert all[..|all|] == all;
    if InPlace(pieces, all) {
      forall budget: int, estimate: string -> nat, k: nat | Fits(all, budget, estimate, k)
        ensures InPlace(pieces, all[..k])
      {
        FitsLength(all, budget, estimate, k);
      }
    }
  }

  lemma FreeFits(all: seq<string>, free: string -> nat)
    requires forall s :: free(s) == 0
    ensures Fits(all, 1, free, |all|)
  {
    forall n | 0 <= n <= |all|
      ensures Cost(all[..n], free) == 0
    {
      FreeCost(all[..n], free);
    }
  }

  lemma {:induction false} FreeCost(all: seq<string>, free: string -> nat)
    requires forall s :: free(s) == 0
    ensures Cost(all, free) == 0
  {
    if all == [] {
    } else {
      FreeCost(all[..|all| - 1], free);
    }
  }

  lemma FitsLength(all: seq<string>, budget: int, estimate: string -> nat, k: nat)
    requires Fits(all, budget, estimate, k)
    ensures k <= |all|
  {
  }

  /**
   The hints of every section are the right ones, whatever a listener does. The texts of the session and
   document sections match them under every budget exactly when the listener left each retrieved text, as
   far as the list still reaches, in its place.
   */
  lemma SectionsAreAlignedIff(session: seq<Hit>, documents: seq<Hit>, hook: seq<string> -> seq<string>,
                              graph: seq<string>, budgets: Budgets, truncate: (string, int) -> string)
    ensures var pieces := Retrieved(session, documents, budgets, truncate);
            var b := Assembled(pieces, hook, graph);
            var n := |Pieces(session)|;
            var d := n + |Pieces(documents)|;
            && Slice(b.hints, 0, n) == Hints(pieces[..n])
            && Slice(b.hints, n, d) == Hints(pieces[n..])
            && (forall hint <- Slice(b.hints, d, |b.hints|) :: hint.None?)
            && (AlwaysInPlace(pieces[..n], Slice(b.texts, 0, n)) && AlwaysInPlace(pieces[n..], Slice(b.texts, n, d))
                <==> InPlace(pieces, hook(Texts(pieces)) + graph))
  {
    hide Pieces, Shortened, AlwaysInPlace, InPlace;
    RetrievedLength(session, documents, budgets, truncate);
    var pieces := Retrieved(session, documents, budgets, truncate);
    var b := Assembled(pieces, hook, graph);
    var n := |Pieces(session)|;
    hide Retrieved, Assembled;
    HintSlices(pieces, hook, graph, n);
    AlwaysInPlaceIff(pieces[..n], Slice(b.texts, 0, n));
    AlwaysInPlaceIff(pieces[n..], Slice(b.texts, n, |pieces|));
    InPlaceSlices(pieces, b.texts, n);
    AssembledTexts(pieces, hook, graph);
  }

  lemma RetrievedLength(session: seq<Hit>, documents: seq<Hit>, budgets: Budgets, truncate: (string, int) -> string)
    ensures |Retrieved(session, documents, budgets, truncate)| == |Pieces(session)| + |Pieces(documents)|
  {
    hide Pieces, Shortened;
  }

  lemma AssembledTexts(pieces: seq<Piece>, hook: seq<string> -> seq<string>, graph: seq<string>)
    ensures Assembled(pieces, hook, graph).texts == hook(Texts(pieces)) + graph
  {
  }

  lemma HintSlices(pieces: seq<Piece>, hook: seq<string> -> seq<string>, graph: seq<string>, n: nat)
    requires n <= |pieces|
    ensures var hints := Assembled(pieces, hook, graph).hints;
            && Slice(hints, 0, n) == Hints(pieces[..n]) && Slice(hints, n, |pieces|) == Hints(pieces[n..])
            && forall hint <- Slice(hints, |pieces|, |hints|) :: hint.None?
  {
    var hints := Assembled(pieces, hook, graph).hints;
    assert forall i | 0 <= i < |hints| :: hints[i] == if i < |pieces| then pieces[i].hint else None;
  }

  lemma InPlaceSlices(pieces: seq<Piece>, all: seq<string>, n: nat)
    requires n <= |pieces|
    ensures InPlace(pieces, all) <==>
            InPlace(pieces[..n], Slice(all, 0, n)) && InPlace(pieces[n..], Slice(all, n, |pieces|))
  {
    var first, second := Slice(all, 0, n), Slice(all, n, |pieces|);
    assert forall i | 0 <= i < |first| :: first[i] == all[i];
    assert forall i | 0 <= i < |second| :: second[i] == all[n + i];
    if InPlace(pieces[..n], first) && InPlace(pieces[n..], second) {
      forall i | 0 <= i < |pieces| && i < |all|
        ensures all[i] == pieces[i].text
      {
        if i < n {
          assert first[i] == pieces[..n][i].text;
        } else {
          assert second[i - n] == pieces[n..][i - n].text;
        }
      }
    }
  }

  /** The listener contract of the event is enough: appending leaves every text in its place. */
  lemma AppendingIsInPlace(pieces: seq<Piece>, hooked: seq<string>)
    requires Texts(pieces) <= hooked
    ensures InPlace(pieces, hooked)
  {
    assert forall i | 0 <= i < |pieces| :: hooked[i] == Texts(pieces)[i];
  }

  /** With listeners that only append, every section pairs its fragments with their own hints. */
  lemma SectionsAreAligned(session: seq<Hit>, documents: seq<Hit>, hook: seq<string> -> seq<string>,
                           graph: seq<string>, budgets: Budgets, truncate: (string, int) -> string)
    requires var texts := Texts(Retrieved(session, documents, budgets, truncate)); texts <= hook(texts)
    ensures var b := Assembled(Retrieved(session, documents, budgets, truncate), hook, graph);
            var n := |Pieces(session)|;
            var d := n + |Pieces(documents)|;
            && |b.hints| == |b.texts|
            && Slice(b.texts, 0, n) == Texts(Pieces(session))
            && Slice(b.hints, 0, n) == Hints(Pieces(session))
            && Slice(b.texts, n, d) == Texts(Shortened(Pieces(documents), budgets.documents, truncate))
            && Slice(b.hints, n, d) == Hints(Pieces(documents))
            && forall hint <- Slice(b.hints, d, |b.hints|) :: hint.None?
  {
    hide Pieces, Retrieved, Shortened, Slice;
    RetrievedSplits(session, documents, budgets, truncate);
    var pieces := Retrieved(session, documents, budgets, truncate);
    var hooked := hook(Texts(pieces));
    var extra := hooked[|pieces|..] + graph;
    var b := Assembled(pieces, hook, graph);
    var first, second := Texts(Pieces(session)), Texts(Shortened(Pieces(documents), budgets.documents, truncate));
    assert hooked == Texts(pieces) + hooked[|pieces|..];
    assert b.texts == first + second + extra;
    SliceParts(first, second, extra);
    assert b.hints == Hints(pieces) + Padded([], |extra|);
    SliceParts(Hints(Pieces(session)), Hints(Pieces(documents)), Padded([], |extra|));
  }

  lemma SliceParts<T>(a: seq<T>, b: seq<T>, c: seq<T>)
    ensures Slice(a + b + c, 0, |a|) == a
    ensures Slice(a + b + c, |a|, |a| + |b|) == b
    ensures Slice(a + b + c, |a| + |b|, |a + b + c|) == c
  {
  }

  // ---------- one pinned document ----------

  /** The scoped variant, which also cuts its hits down to the citations of what it kept. */
  method BuildScopedContext(documents: seq<Hit>, hook: seq<string> -> seq<string>, budget: int,
                            estimate: string -> nat)
    returns (fragments: seq<string>, hints: seq<Hint>, cited: seq<Piece>)
    ensures var pieces := Pieces(documents);
            Outcome(pieces, hook(Texts(pieces)), fragments, hints, cited, budget, estimate)
  {
    hide Strip, Pieces, Fits;
    ghost var pieces := Pieces(documents);
    var doc, origins := AppendHits(documents, [], []);
    var n := |doc|;
    cited := seq(n, i requires 0 <= i < n => Piece(doc[i], origins[i]));
    assert cited == pieces;
    fragments, hints := FitPlaintextBundle(hook(doc), origins, budget, estimate);
    assert doc == Texts(pieces) && origins == Hints(pieces);
    assert pieces[..|cited|] == cited;
    while |cited| > |fragments|
      invariant |cited| <= |pieces| && cited == pieces[..|cited|]
      invariant |cited| == |pieces| || |cited| >= |fragments|
    {
      cited := cited[..|cited| - 1];
    }
  }

  /**
   A citation and the hint beside it are always of one hit, and what has no citation has no hint. Every
   citation is of the fragment beside it, under every budget, exactly when the listeners left each retrieved
   text, as far as the list still reaches, in its place.
   */
  lemma CitationsMatchIff(pieces: seq<Piece>, hooked: seq<string>)
    ensures forall fragments, hints, cited, budget: int, estimate: string -> nat
              | Outcome(pieces, hooked, fragments, hints, cited, budget, estimate) :: HintsMatch(hints, cited)
    ensures (forall fragments, hints, cited, budget: int, estimate: string -> nat
               | Outcome(pieces, hooked, fragments, hints, cited, budget, estimate) :: InPlace(cited, fragments))
       <==> InPlace(pieces, hooked)
  {
    forall fragments, hints, cited, budget: int, estimate: string -> nat
      | Outcome(pieces, hooked, fragments, hints, cited, budget, estimate)
      ensures HintsMatch(hints, cited)
      ensures InPlace(pieces, hooked) ==> InPlace(cited, fragments)
    {
      FitsLength(hooked, budget, estimate, |fragments|);
    }
    var free: string -> nat := s => 0;
    FreeFits(hooked, free);
    assert hooked[..|hooked|] == hooked;
    var hints := Padded(Hints(pieces), |hooked|)[..|hooked|];
    var cited := pieces[..if |pieces| < |hooked| then |pieces| else |hooked|];
    assert Outcome(pieces, hooked, hooked, hints, cited, 1, free);
    if InPlace(cited, hooked) {
      assert forall i | 0 <= i < |pieces| && i < |hooked| :: cited[i] == pieces[i];
    }
  }

  /** What `BuildScopedContext` returns for some budget and estimates. */
  ghost predicate Outcome(pieces: seq<Piece>, hooked: seq<string>, fragments: seq<string>, hints: seq<Hint>,
                          cited: seq<Piece>, budget: int, estimate: string -> nat) {
    && Section(fragments, hints, hooked, Hints(pieces), budget, estimate)
    && cited == pieces[..if |pieces| < |fragments| then |pieces| else |fragments|]
  }

  predicate HintsMatch(hints: seq<Hint>, cited: seq<Piece>) {
    && |cited| <= |hints|
    && forall i | 0 <= i < |hints| :: hints[i] == if i < |cited| then cited[i].hint else None
  }
}
