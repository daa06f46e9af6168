/** The vector-store wrapper: an optional store of documents, an optional
    query view over it with the number of documents a query returns, and the
    copy of the store kept on disk. */
module Retrieval {
  import opened Wrappers
  import opened Documents

  /** A query view, as `as_retriever` makes it: the documents it searches and
      the number `k` of documents a query returns. */
  datatype View = View(docs: seq<Document>, k: nat)

  /** The nearest-neighbour index answers a query with positions of the
      store's documents, the closest first; positions past the end (the
      index's filler for "no more") are skipped. */
  type Ranking = (string, seq<Document>) -> seq<nat>

  /** The documents at the positions of `order` that exist, in that order. */
  function Ranked(order: seq<nat>, docs: seq<Document>): (r: seq<Document>)
    ensures |r| <= |order|
    ensures forall d :: d in r ==> d in docs
  {
    if order == [] then []
    else (if order[0] < |docs| then [docs[order[0]]] else []) + Ranked(order[1..], docs)
  }

  /** At most `k` documents, the first ones of the ranking. */
  function TopK(order: seq<nat>, docs: seq<Document>, k: nat): (r: seq<Document>)
    ensures |r| <= k
    ensures forall d :: d in r ==> d in docs
  {
    if k == 0 || order == [] then []
    else if order[0] < |docs| then [docs[order[0]]] + TopK(order[1..], docs, k - 1)
    else TopK(order[1..], docs, k)
  }

  /** What a view returns for question `q`. */
  function Nearest(rank: Ranking, docs: seq<Document>, q: string, k: nat): (r: seq<Document>)
    ensures |r| <= k
    ensures forall d :: d in r ==> d in docs
  {
    TopK(rank(q, docs), docs, k)
  }

  function Min(a: nat, b: nat): nat {
    if a <= b then a else b
  }

  /** A query returns the `k` best-ranked documents of the store, or all of
      them when the store holds fewer. */
  lemma {:induction false} TopKIsPrefix(order: seq<nat>, docs: seq<Document>, k: nat)
    ensures TopK(order, docs, k) == Ranked(order, docs)[..Min(k, |Ranked(order, docs)|)]
  {
    if k != 0 && order != [] {
      var rest := Ranked(order[1..], docs);
      if order[0] < |docs| {
        TopKIsPrefix(order[1..], docs, k - 1);
        assert Ranked(order, docs) == [docs[order[0]]] + rest;
        assert ([docs[order[0]]] + rest)[..Min(k, 1 + |rest|)] == [docs[order[0]]] + rest[..Min(k - 1, |rest|)];
      } else {
        TopKIsPrefix(order[1..], docs, k);
        assert Ranked(order, docs) == rest;
      }
    }
  }

  /** Asking for fewer documents returns the beginning of the longer answer. */
  lemma NearestMonotone(rank: Ranking, docs: seq<Document>, q: string, k1: nat, k2: nat)
    requires k1 <= k2
    ensures Nearest(rank, docs, q, k1) <= Nearest(rank, docs, q, k2)
  {
    TopKIsPrefix(rank(q, docs), docs, k1);
    TopKIsPrefix(rank(q, docs), docs, k2);
  }

  /** The store after `set`: the new documents merged into the old store,
      duplicates kept, or the new documents alone when there was none. */
  function Merged(store: Option<seq<Document>>, documents: seq<Document>): (r: seq<Document>)
    ensures |r| == (if store.Some? then |store.value| else 0) + |documents|
    ensures store.Some? ==> r[..|store.value|] == store.value
    ensures r[|r| - |documents|..] == documents
  {
    if store.Some? then store.value + documents else documents
  }

  /** The view after `get(question, k)`: a truthy `k` replaces the view's
      `k` for this and every later query; `None` and `0` keep it. */
  function WithK(v: View, k: Option<nat>): (w: View)
    ensures w.docs == v.docs
    ensures w.k != v.k ==> k.Some? && k.value != 0
    ensures k.Some? && k.value != 0 ==> w.k == k.value
  {
    if k.Some? && k.value != 0 then View(v.docs, k.value) else v
  }

  class Retriever {
    const kSearch: nat
    const rank: Ranking
    /** `vectorstore`. */
    var store: Option<seq<Document>>
    /** `retriever`. */
    var view: Option<View>
    /** What `save_local` last wrote to the index path, and `load_local` reads. */
    var disk: Option<seq<Document>>
    /** Every question a view has answered, oldest first. */
    ghost var queries: seq<string>

    constructor(kSearch: nat, rank: Ranking, disk: Option<seq<Document>>)
      ensures this.kSearch == kSearch && this.rank == rank && this.disk == disk
      ensures store == None && view == None && queries == []
    {
      this.kSearch := kSearch;
      this.rank := rank;
      this.disk := disk;
      store := None;
      view := None;
      queries := [];
    }

    /** `setup`: a view over the current store returning `kSearch`
        documents; without a store the call fails. */
    method Setup() returns (r: Result<()>)
      modifies this
      ensures old(store).None? ==> r == Err(NoVectorStore) && view == old(view)
      ensures old(store).Some? ==> r.Ok? && view == Some(View(old(store).value, kSearch))
      ensures store == old(store) && disk == old(disk) && queries == old(queries)
    {
      if store.None? {
        return Err(NoVectorStore);
      }
      view := Some(View(store.value, kSearch));
      return Ok(());
    }

    /** `save`: writes the store to disk; without a store the call fails. */
    method Save() returns (r: Result<()>)
      modifies this
      ensures old(store).None? ==> r == Err(NoVectorStore) && disk == old(disk)
      ensures old(store).Some? ==> r.Ok? && disk == old(store)
      ensures store == old(store) && view == old(view) && queries == old(queries)
    {
      if store.None? {
        return Err(NoVectorStore);
      }
      disk := store;
      return Ok(());
    }

    /** `build`: a store of exactly the given documents, saved to disk. */
    method Build(documents: seq<Document>)
      modifies this
      ensures store == Some(documents) && disk == Some(documents)
      ensures view == old(view) && queries == old(queries)
    {
      store := Some(documents);
      var _ := Save();
    }

    /** `load`: the store saved on disk, if there is one; otherwise the
        error is swallowed and the store stays as it was. */
    method Load()
      modifies this
      ensures store == (if old(disk).Some? then old(disk) else old(store))
      ensures disk == old(disk) && view == old(view) && queries == old(queries)
    {
      if disk.Some? {
        store := disk;
      }
    }

    /** `set`: the documents merged into the store (or made the store),
        saved, and a fresh view with `kSearch`. */
    method Set(documents: seq<Document>)
      modifies this
      ensures store == Some(Merged(old(store), documents)) && disk == store
      ensures view == Some(View(Merged(old(store), documents), kSearch))
      ensures queries == old(queries)
    {
      store := Some(Merged(store, documents));
      var _ := Save();
      view := Some(View(store.value, kSearch));
    }

    /** `get`: a truthy `k` first overwrites the view's `k`; the view then
        answers the question. Without a view the call fails. */
    method Get(question: string, k: Option<nat>) returns (r: Result<seq<Document>>)
      modifies this
      ensures old(view).None? ==> r == Err(NoRetriever) && view == old(view) && queries == old(queries)
      ensures old(view).Some? ==> view == Some(WithK(old(view).value, k)) && queries == old(queries) + [question]
      ensures old(view).Some? ==> r == Ok(Nearest(rank, view.value.docs, question, view.value.k))
      ensures store == old(store) && disk == old(disk)
    {
      if view.None? {
        return Err(NoRetriever);
      }
      view := Some(WithK(view.value, k));
      queries := queries + [question];
      r := Ok(Nearest(rank, view.value.docs, question, view.value.k));
    }
  }

  // ---------------------------------------------------------------------
  // The lifecycle, on fresh instances
  // ---------------------------------------------------------------------

  /** A fresh instance has neither store nor view: a query fails, and so
      does `setup` when nothing is on disk to load. */
  method FreshHasNothing(kSearch: nat, rank: Ranking, q: string) returns (got: Result<seq<Document>>, setUp: Result<()>)
    ensures got == Err(NoRetriever) && setUp == Err(NoVectorStore)
  {
    var retriever := new Retriever(kSearch, rank, None);
    got := retriever.Get(q, None);
    retriever.Load();
    setUp := retriever.Setup();
  }

  /** A `k` passed to one query sticks: a later query without `k` returns
      that many documents, not `kSearch`. */
  method KSticks(kSearch: nat, rank: Ranking, docs: seq<Document>, q1: string, q2: string, k: nat)
    returns (second: Result<seq<Document>>)
    requires k != 0
    ensures second == Ok(Nearest(rank, docs, q2, k))
  {
    var retriever := new Retriever(kSearch, rank, Some(docs));
    retriever.Load();
    var _ := retriever.Setup();
    var _ := retriever.Get(q1, Some(k));
    second := retriever.Get(q2, None);
  }

  /** `set` discards an earlier `k` override and answers over the old
      documents followed by the new ones. */
  method SetResetsK(kSearch: nat, rank: Ranking, docs: seq<Document>, more: seq<Document>,
                    q1: string, q2: string, k: nat)
    returns (after: Result<seq<Document>>, saved: Option<seq<Document>>)
    ensures after == Ok(Nearest(rank, docs + more, q2, kSearch))
    ensures saved == Some(docs + more)
  {
    var retriever := new Retriever(kSearch, rank, Some(docs));
    retriever.Load();
    var _ := retriever.Setup();
    var _ := retriever.Get(q1, Some(k));
    retriever.Set(more);
    after := retriever.Get(q2, None);
    saved := retriever.disk;
  }

  /** `set` on an instance without a store makes the new documents the
      store. */
  method SetCreates(kSearch: nat, rank: Ranking, more: seq<Document>, q: string)
    returns (after: Result<seq<Document>>, store: Option<seq<Document>>)
    ensures after == Ok(Nearest(rank, more, q, kSearch)) && store == Some(more)
  {
    var retriever := new Retriever(kSearch, rank, None);
    retriever.Load();
    retriever.Set(more);
    after := retriever.Get(q, None);
    store := retriever.store;
  }

  /** `build` replaces whatever copy was on disk, so a later `load` reads
      back exactly the built documents, and the saved copy equals them. */
  method BuildThenLoad(kSearch: nat, rank: Ranking, earlier: Option<seq<Document>>, docs: seq<Document>)
    returns (store: Option<seq<Document>>, saved: Option<seq<Document>>)
    ensures store == Some(docs) && saved == Some(docs)
  {
    var retriever := new Retriever(kSearch, rank, earlier);
    retriever.Load();
    retriever.Build(docs);
    retriever.Load();
    store := retriever.store;
    saved := retriever.disk;
  }
}
