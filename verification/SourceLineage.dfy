/** Bounded provenance expansion: a breadth-first load of cited memories under a round and a
    node budget, then a worklist walk of the loaded, possibly cyclic, citation graph. */
module SourceLineage {
  import opened Common
  import opened Sorting

  const ROUNDS: nat := 16
  const NODE_BUDGET: nat := 4096
  const DEPTHS: set<nat> := {10, 20, 50, 100}

  /** An evidence reference: to another memory, or to an observation. */
  datatype EvidenceRef = EvidenceRef(ofMemory: bool, sourceId: string)

  /** The records a tenant's store holds: each memory's own evidence. */
  type Store = map<string, seq<EvidenceRef>>

  datatype Resolution =
    | Resolved(groups: seq<seq<string>>)
    | ExceedsNodeBudget
    | ExceedsDepthBudget

  /** The evidence of a record; a missing record is a leaf. */
  function Cited(store: Store, id: string): seq<EvidenceRef> {
    if id in store then store[id] else []
  }

  function MemoryIds(refs: seq<EvidenceRef>): set<string> {
    set r | r in refs && r.ofMemory :: r.sourceId
  }

  function Citations(store: Store, ids: set<string>): set<string> {
    set id, next | id in ids && next in MemoryIds(Cited(store, id)) :: next
  }

  function Roots(evidence: seq<seq<EvidenceRef>>): set<string> {
    set group, r | group in evidence && r in group && r.ofMemory :: r.sourceId
  }

  // ---------------------------------------------------------------- breadth-first layers

  /** The memories within fewer than `n` citations of the roots. */
  function Within(store: Store, roots: set<string>, n: nat): set<string>
    decreases n, roots
  {
    if n == 0 then {} else roots + Citations(store, Within(store, roots, n - 1))
  }

  lemma {:induction false} WithinGrows(store: Store, roots: set<string>, m: nat, n: nat)
    requires m <= n
    ensures Within(store, roots, m) <= Within(store, roots, n)
  {
    if m > 0 {
      WithinGrows(store, roots, m - 1, n - 1);
    }
  }

  lemma {:induction false} WithinSettles(store: Store, roots: set<string>, m: nat, n: nat)
    requires m <= n
    requires Within(store, roots, m + 1) == Within(store, roots, m)
    ensures Within(store, roots, n) == Within(store, roots, m)
    decreases n
  {
    if m < n {
      WithinSettles(store, roots, m, n - 1);
    }
  }

  /** A chain of citations from a root: every memory is cited by the one before it. */
  ghost predicate IsChain(store: Store, roots: set<string>, chain: seq<string>) {
    && chain != []
    && chain[0] in roots
    && forall i :: 0 <= i < |chain| - 1 ==> chain[i + 1] in MemoryIds(Cited(store, chain[i]))
  }

  ghost predicate ChainTo(store: Store, roots: set<string>, n: nat, id: string) {
    exists chain :: IsChain(store, roots, chain) && |chain| <= n && chain[|chain| - 1] == id
  }

  /** The layers are the citation distances: `id` is within `n` exactly when some chain of at
      most `n` memories leads to it. */
  lemma {:induction false} WithinIsChainLength(store: Store, roots: set<string>, n: nat, id: string)
    ensures id in Within(store, roots, n) <==> ChainTo(store, roots, n, id)
  {
    if id in Within(store, roots, n) {
      WithinHasChain(store, roots, n, id);
    }
    if ChainTo(store, roots, n, id) {
      var chain :| IsChain(store, roots, chain) && |chain| <= n && chain[|chain| - 1] == id;
      ChainIsWithin(store, roots, n, chain);
    }
  }

  lemma {:induction false} WithinHasChain(store: Store, roots: set<string>, n: nat, id: string)
    requires id in Within(store, roots, n)
    ensures ChainTo(store, roots, n, id)
  {
    if id in roots {
      assert IsChain(store, roots, [id]);
    } else {
      var via :| via in Within(store, roots, n - 1) && id in MemoryIds(Cited(store, via));
      WithinHasChain(store, roots, n - 1, via);
      ChainExtends(store, roots, n - 1, via, id);
    }
  }

  lemma {:induction false} ChainIsWithin(store: Store, roots: set<string>, n: nat, chain: seq<string>)
    requires IsChain(store, roots, chain) && |chain| <= n
    ensures chain[|chain| - 1] in Within(store, roots, n)
    decreases n
  {
    if |chain| > 1 {
      var before := chain[..|chain| - 1];
      var via := before[|before| - 1];
      assert IsChain(store, roots, before);
      ChainIsWithin(store, roots, n - 1, before);
      assert chain[|before| - 1 + 1] in MemoryIds(Cited(store, via));
      assert chain[|chain| - 1] in Citations(store, Within(store, roots, n - 1));
    }
  }

  lemma ChainExtends(store: Store, roots: set<string>, n: nat, via: string, id: string)
    requires ChainTo(store, roots, n, via) && id in MemoryIds(Cited(store, via))
    ensures ChainTo(store, roots, n + 1, id)
  {
    var chain :| IsChain(store, roots, chain) && |chain| <= n && chain[|chain| - 1] == via;
    assert IsChain(store, roots, chain + [id]);
  }

  /** The roots are the memories the groups cite. */
  lemma RootsAreCited(evidence: seq<seq<EvidenceRef>>, id: string)
    ensures id in Roots(evidence) <==>
              exists group, ref :: group in evidence && ref in group && ref.ofMemory && ref.sourceId == id
  {
  }

  /** A layer is the roots and every memory that a record of the layer before cites. */
  lemma NextLayerExactlyWhen(store: Store, roots: set<string>, n: nat, id: string)
    ensures id in Within(store, roots, n + 1) <==>
              || id in roots
              || exists via, ref :: via in Within(store, roots, n) && via in store && ref in store[via]
                                    && ref.ofMemory && ref.sourceId == id
  {
    if via, ref :| via in Within(store, roots, n) && via in store && ref in store[via]
                   && ref.ofMemory && ref.sourceId == id {
      assert ref.sourceId in MemoryIds(Cited(store, via));
    }
  }

  // ---------------------------------------------------------------- reachability

  /** A walk along evidence: each reference but the last names a memory citing the next. */
  ghost predicate IsWalk(store: Store, group: seq<EvidenceRef>, walk: seq<EvidenceRef>) {
    && walk != []
    && walk[0] in group
    && forall i :: 0 <= i < |walk| - 1 ==>
         walk[i].ofMemory && walk[i + 1] in Cited(store, walk[i].sourceId)
  }

  ghost predicate Reaches(store: Store, group: seq<EvidenceRef>, ref: EvidenceRef) {
    exists walk :: IsWalk(store, group, walk) && walk[|walk| - 1] == ref
  }

  ghost predicate ReachesTurn(store: Store, sourceIds: map<string, string>, group: seq<EvidenceRef>, turn: string) {
    exists ref :: Reaches(store, group, ref) && Names(sourceIds, ref, turn)
  }

  predicate Names(sourceIds: map<string, string>, ref: EvidenceRef, turn: string) {
    !ref.ofMemory && ref.sourceId in sourceIds && sourceIds[ref.sourceId] == turn
  }

  /** Every turn some chain of citations leads to, in the whole store. */
  ghost function ReachableTurns(store: Store, sourceIds: map<string, string>, group: seq<EvidenceRef>): set<string> {
    set turn | turn in sourceIds.Values && ReachesTurn(store, sourceIds, group, turn)
  }

  lemma ReachesOwnEvidence(store: Store, group: seq<EvidenceRef>, ref: EvidenceRef)
    requires ref in group
    ensures Reaches(store, group, ref)
  {
    assert IsWalk(store, group, [ref]);
  }

  lemma ReachesCitations(store: Store, group: seq<EvidenceRef>, via: EvidenceRef, ref: EvidenceRef)
    requires Reaches(store, group, via) && via.ofMemory
    requires ref in Cited(store, via.sourceId)
    ensures Reaches(store, group, ref)
  {
    var walk :| IsWalk(store, group, walk) && walk[|walk| - 1] == via;
    assert IsWalk(store, group, walk + [ref]);
  }

  lemma ReachableTurnsHolds(store: Store, sourceIds: map<string, string>, group: seq<EvidenceRef>, ref: EvidenceRef)
    requires Reaches(store, group, ref)
    requires !ref.ofMemory && ref.sourceId in sourceIds
    ensures sourceIds[ref.sourceId] in ReachableTurns(store, sourceIds, group)
  {
    assert Names(sourceIds, ref, sourceIds[ref.sourceId]);
  }

  /** Following evidence stays inside any set of references closed under citation. */
  lemma {:induction false} WalkStaysInside(
      store: Store, group: seq<EvidenceRef>, inside: set<EvidenceRef>, walk: seq<EvidenceRef>)
    requires IsWalk(store, group, walk)
    requires forall r :: r in group ==> r in inside
    requires forall r, next ::
               r in inside && r.ofMemory && next in Cited(store, r.sourceId) ==> next in inside
    ensures walk[|walk| - 1] in inside
    decreases |walk|
  {
    if |walk| > 1 {
      var before := walk[..|walk| - 1];
      WalkStaysInside(store, group, inside, before);
      assert walk[|before| - 1 + 1] in Cited(store, before[|before| - 1].sourceId);
    }
  }

  /** What is reached: a group's own evidence, and every reference a reached memory's record holds. */
  lemma ReachedExactlyWhen(store: Store, group: seq<EvidenceRef>, ref: EvidenceRef)
    ensures Reaches(store, group, ref) <==>
              || ref in group
              || exists via :: Reaches(store, group, via) && via.ofMemory
                               && via.sourceId in store && ref in store[via.sourceId]
  {
    if ref in group {
      ReachesOwnEvidence(store, group, ref);
    }
    if via :| Reaches(store, group, via) && via.ofMemory && via.sourceId in store && ref in store[via.sourceId] {
      ReachesCitations(store, group, via, ref);
    }
    if Reaches(store, group, ref) && ref !in group {
      var walk :| IsWalk(store, group, walk) && walk[|walk| - 1] == ref;
      var before := walk[..|walk| - 1];
      WalkExtends(store, group, before, ref);
      assert walk == before + [ref];
      assert Reaches(store, group, before[|before| - 1]);
    }
  }

  /** Nothing else is reached: any references that hold the group and the records of their own memories
      hold everything reached. */
  lemma ReachedIsLeast(store: Store, group: seq<EvidenceRef>, inside: set<EvidenceRef>, ref: EvidenceRef)
    requires Reaches(store, group, ref) && forall r :: r in group ==> r in inside
    requires forall r, next ::
               r in inside && r.ofMemory && r.sourceId in store && next in store[r.sourceId] ==> next in inside
    ensures ref in inside
  {
    var walk :| IsWalk(store, group, walk) && walk[|walk| - 1] == ref;
    WalkStaysInside(store, group, inside, walk);
  }

  /** What a group is credited with: the turns of the observations it reaches. */
  lemma CreditedExactlyWhen(store: Store, sourceIds: map<string, string>, group: seq<EvidenceRef>, turn: string)
    ensures turn in ReachableTurns(store, sourceIds, group) <==>
              exists ref :: Reaches(store, group, ref) && !ref.ofMemory
                            && ref.sourceId in sourceIds && sourceIds[ref.sourceId] == turn
  {
    if ref :| Reaches(store, group, ref) && !ref.ofMemory && ref.sourceId in sourceIds
              && sourceIds[ref.sourceId] == turn {
      ReachableTurnsHolds(store, sourceIds, group, ref);
    }
    if turn in ReachableTurns(store, sourceIds, group) {
      var ref :| Reaches(store, group, ref) && Names(sourceIds, ref, turn);
    }
  }

  /** The loaded part of the store, once it holds every memory the group leads to. */
  ghost predicate IsLoaded(store: Store, nodes: Store, group: seq<EvidenceRef>) {
    && IsPartOf(nodes, store)
    && MemoryIds(group) <= nodes.Keys
    && Citations(store, nodes.Keys) <= nodes.Keys
  }

  /** A walk of the loaded part sees exactly what a walk of the whole store sees. */
  lemma {:induction false} LoadedWalks(store: Store, nodes: Store, group: seq<EvidenceRef>, walk: seq<EvidenceRef>)
    requires IsLoaded(store, nodes, group)
    ensures IsWalk(store, group, walk) <==> IsWalk(nodes, group, walk)
    ensures IsWalk(store, group, walk) && walk[|walk| - 1].ofMemory ==>
              walk[|walk| - 1].sourceId in nodes
    decreases |walk|
  {
    if |walk| == 1 {
      assert walk[0] in group && walk[0].ofMemory ==> walk[0].sourceId in MemoryIds(group);
    } else if |walk| > 1 {
      var before, last := walk[..|walk| - 1], walk[|walk| - 1];
      LoadedWalks(store, nodes, group, before);
      var via := before[|before| - 1];
      assert walk == before + [last];
      WalkExtends(store, group, before, last);
      WalkExtends(nodes, group, before, last);
      if IsWalk(store, group, before) && via.ofMemory && last in Cited(store, via.sourceId) && last.ofMemory {
        assert last.sourceId in MemoryIds(Cited(store, via.sourceId));
        assert last.sourceId in Citations(store, nodes.Keys);
      }
    }
  }

  lemma WalkExtends(store: Store, group: seq<EvidenceRef>, before: seq<EvidenceRef>, last: EvidenceRef)
    requires before != []
    ensures IsWalk(store, group, before + [last]) <==>
              && IsWalk(store, group, before)
              && before[|before| - 1].ofMemory
              && last in Cited(store, before[|before| - 1].sourceId)
  {
    var walk := before + [last];
    if IsWalk(store, group, walk) {
      assert walk[|before| - 1 + 1] in Cited(store, walk[|before| - 1].sourceId);
      forall i | 0 <= i < |before| - 1
        ensures before[i].ofMemory && before[i + 1] in Cited(store, before[i].sourceId)
      {
        assert walk[i].ofMemory && walk[i + 1] in Cited(store, walk[i].sourceId);
      }
    }
  }

  lemma LoadedReachesTheSame(store: Store, nodes: Store, sourceIds: map<string, string>, group: seq<EvidenceRef>)
    requires IsLoaded(store, nodes, group)
    ensures ReachableTurns(nodes, sourceIds, group) == ReachableTurns(store, sourceIds, group)
  {
    forall ref
      ensures Reaches(store, group, ref) <==> Reaches(nodes, group, ref)
    {
      if Reaches(store, group, ref) {
        var walk :| IsWalk(store, group, walk) && walk[|walk| - 1] == ref;
        LoadedWalks(store, nodes, group, walk);
      }
      if Reaches(nodes, group, ref) {
        var walk :| IsWalk(nodes, group, walk) && walk[|walk| - 1] == ref;
        LoadedWalks(store, nodes, group, walk);
      }
    }
    forall turn
      ensures ReachesTurn(store, sourceIds, group, turn) <==> ReachesTurn(nodes, sourceIds, group, turn)
    {
    }
  }

  // ---------------------------------------------------------------- the expansion

  datatype Lineage = Lineage(store: Store, sourceIds: map<string, string>) {

    /** Loads the citation graph layer by layer and resolves every group of evidence. It refuses
        exactly when the memories within sixteen citations pass the node budget, or some memory
        is sixteen or more citations from every root. */
    method Resolve(evidence: seq<seq<EvidenceRef>>) returns (r: Resolution)
      ensures r.ExceedsNodeBudget? <==> |Within(store, Roots(evidence), ROUNDS)| > NODE_BUDGET
      ensures r.ExceedsDepthBudget? <==>
                && |Within(store, Roots(evidence), ROUNDS)| <= NODE_BUDGET
                && Within(store, Roots(evidence), ROUNDS + 1) != Within(store, Roots(evidence), ROUNDS)
      ensures r.Resolved? ==>
                && |r.groups| == |evidence|
                && forall g :: 0 <= g < |evidence| ==>
                     IsListing(StringLeq, ReachableTurns(store, sourceIds, evidence[g]), r.groups[g])
    {
      r := ResolveWithin(evidence, ROUNDS);
    }

    method ResolveWithin(evidence: seq<seq<EvidenceRef>>, rounds: nat) returns (r: Resolution)
      ensures r.ExceedsNodeBudget? <==> |Within(store, Roots(evidence), rounds)| > NODE_BUDGET
      ensures r.ExceedsDepthBudget? <==>
                && |Within(store, Roots(evidence), rounds)| <= NODE_BUDGET
                && Within(store, Roots(evidence), rounds + 1) != Within(store, Roots(evidence), rounds)
      ensures r.Resolved? ==>
                && |r.groups| == |evidence|
                && forall g :: 0 <= g < |evidence| ==>
                     IsListing(StringLeq, ReachableTurns(store, sourceIds, evidence[g]), r.groups[g])
    {
      var overBudget, nodes, frontier := Load(Roots(evidence), rounds);
      if overBudget {
        return ExceedsNodeBudget;
      }
      FrontierIsTheNextLayer(store, Roots(evidence), rounds, nodes.Keys, frontier);
      if frontier - nodes.Keys != {} {
        return ExceedsDepthBudget;
      }
      forall group | group in evidence ensures IsLoaded(store, nodes, group) {
        GroupIsLoaded(store, nodes, evidence, group, rounds);
      }
      var groups := ResolveGroups(evidence, nodes);
      r := Resolved(groups);
    }

    method ResolveGroups(evidence: seq<seq<EvidenceRef>>, nodes: Store) returns (groups: seq<seq<string>>)
      requires forall group :: group in evidence ==> IsLoaded(store, nodes, group)
      ensures |groups| == |evidence|
      ensures forall g :: 0 <= g < |evidence| ==>
                IsListing(StringLeq, ReachableTurns(store, sourceIds, evidence[g]), groups[g])
    {
      groups := [];
      while |groups| < |evidence|
        invariant |groups| <= |evidence|
        invariant forall g :: 0 <= g < |groups| ==>
                    IsListing(StringLeq, ReachableTurns(store, sourceIds, evidence[g]), groups[g])
      {
        var listing := SortedSources(evidence[|groups|], nodes);
        groups := groups + [listing];
      }
    }

    /** The rounds: `nodes` is every memory within `rounds` citations, `frontier` what they cite. */
    method Load(roots: set<string>, rounds: nat) returns (overBudget: bool, nodes: Store, frontier: set<string>)
      ensures overBudget <==> |Within(store, roots, rounds)| > NODE_BUDGET
      ensures !overBudget ==> IsPartOf(nodes, store) && AtRound(store, roots, rounds, nodes.Keys, frontier)
    {
      nodes, frontier := map[], roots;
      RoundZero(store, roots, nodes);
      var round := 0;
      while round < rounds
        invariant 0 <= round <= rounds
        invariant IsPartOf(nodes, store)
        invariant AtRound(store, roots, round, nodes.Keys, frontier)
        invariant |nodes.Keys| <= NODE_BUDGET
      {
        var pending := frontier - nodes.Keys;
        if pending == {} {
          RoundsHaveSettled(store, roots, round, rounds, nodes.Keys, frontier);
          return false, nodes, frontier;
        }
        if |nodes| + |pending| > NODE_BUDGET {
          RoundsPassTheBudget(store, roots, round, rounds, nodes.Keys, frontier);
          return true, nodes, frontier;
        }
        nodes, frontier := LoadLayer(roots, round, nodes, frontier);
        round := round + 1;
      }
      return false, nodes, frontier;
    }

    /** The body of a round: the pending records, missing ones as leaves, and what they cite. */
    method LoadLayer(ghost roots: set<string>, ghost round: nat, nodes: Store, frontier: set<string>)
      returns (loaded: Store, next: set<string>)
      requires IsPartOf(nodes, store)
      requires AtRound(store, roots, round, nodes.Keys, frontier)
      ensures IsPartOf(loaded, store)
      ensures AtRound(store, roots, round + 1, loaded.Keys, next)
      ensures |loaded| == |nodes| + |frontier - nodes.Keys|
    {
      var pending := frontier - nodes.Keys;
      var memories := map id | id in pending && id in store :: store[id];
      loaded := AddLayer(store, nodes, pending, memories);
      next := Citations(memories, memories.Keys);
      LayerIsLoaded(store, roots, round, nodes.Keys, frontier, memories);
    }

    method SortedSources(group: seq<EvidenceRef>, nodes: Store) returns (listing: seq<string>)
      requires IsLoaded(store, nodes, group)
      ensures IsListing(StringLeq, ReachableTurns(store, sourceIds, group), listing)
    {
      var found := Sources(group, nodes);
      LoadedReachesTheSame(store, nodes, sourceIds, group);
      StringLeqIsTotalOrder();
      listing := SortedListing(StringLeq, found);
    }

    /** The worklist walk: terminates on cycles, and finds every turn the loaded graph leads to. */
    method Sources(evidence: seq<EvidenceRef>, nodes: Store) returns (found: set<string>)
      ensures found == ReachableTurns(nodes, sourceIds, evidence)
    {
      found := {};
      var seen: set<string> := {};
      var pending := evidence;
      ghost var done: set<EvidenceRef> := {};
      OwnEvidenceIsReached(nodes, evidence);
      while pending != []
        invariant AllReached(nodes, evidence, pending)
        invariant found <= ReachableTurns(nodes, sourceIds, evidence)
        invariant Listed(evidence, done, pending)
        invariant forall r :: r in done ==> Processed(sourceIds, r, seen, found)
        invariant forall id :: id in seen ==> Listed(Cited(nodes, id), done, pending)
        decreases nodes.Keys - seen, |pending|
      {
        var ref := pending[|pending| - 1];
        var rest := pending[..|pending| - 1];
        var more := [];
        if !ref.ofMemory && ref.sourceId in sourceIds {
          ReachableTurnsHolds(nodes, sourceIds, evidence, ref);
          found := found + {sourceIds[ref.sourceId]};
        } else if ref.ofMemory && ref.sourceId !in seen {
          seen := seen + {ref.sourceId};
          CitedIsReached(nodes, evidence, ref);
          more := Cited(nodes, ref.sourceId);
        }
        WorklistMoves(nodes, evidence, seen, done, pending, rest, ref, more);
        pending := rest + more;
        done := done + {ref};
      }
      NothingIsMissed(nodes, sourceIds, evidence, done, seen, found);
    }
  }

  /** Loaded records are the store's own; a missing one was loaded as a leaf. */
  ghost predicate IsPartOf(nodes: Store, store: Store) {
    forall id :: id in nodes ==> nodes[id] == Cited(store, id)
  }

  /** After `round` rounds: the loaded memories, and what they cite. */
  ghost predicate AtRound(store: Store, roots: set<string>, round: nat, loaded: set<string>, frontier: set<string>) {
    && loaded == Within(store, roots, round)
    && loaded + (frontier - loaded) == Within(store, roots, round + 1)
  }

  function AddLayer(store: Store, nodes: Store, pending: set<string>, memories: Store): (r: Store)
    requires IsPartOf(nodes, store)
    requires pending !! nodes.Keys
    requires memories == map id | id in pending && id in store :: store[id]
    ensures IsPartOf(r, store)
    ensures r.Keys == nodes.Keys + pending
  {
    nodes + (map id | id in pending :: []) + memories
  }

  ghost predicate AllReached(nodes: Store, evidence: seq<EvidenceRef>, refs: seq<EvidenceRef>) {
    forall r :: r in refs ==> Reaches(nodes, evidence, r)
  }

  /** Every one of `refs` has been handled or is still on the worklist. */
  ghost predicate Listed(refs: seq<EvidenceRef>, done: set<EvidenceRef>, pending: seq<EvidenceRef>) {
    forall r :: r in refs ==> r in done || r in pending
  }

  lemma OwnEvidenceIsReached(nodes: Store, evidence: seq<EvidenceRef>)
    ensures AllReached(nodes, evidence, evidence)
  {
    forall r | r in evidence
      ensures Reaches(nodes, evidence, r)
    {
      ReachesOwnEvidence(nodes, evidence, r);
    }
  }

  lemma CitedIsReached(nodes: Store, evidence: seq<EvidenceRef>, via: EvidenceRef)
    requires Reaches(nodes, evidence, via) && via.ofMemory
    ensures AllReached(nodes, evidence, Cited(nodes, via.sourceId))
  {
    forall r | r in Cited(nodes, via.sourceId)
      ensures Reaches(nodes, evidence, r)
    {
      ReachesCitations(nodes, evidence, via, r);
    }
  }

  /** Popping a reference and pushing what it cites loses nothing that was listed. */
  lemma WorklistMoves(nodes: Store, evidence: seq<EvidenceRef>, seen: set<string>, done: set<EvidenceRef>,
                      pending: seq<EvidenceRef>, rest: seq<EvidenceRef>, ref: EvidenceRef, more: seq<EvidenceRef>)
    requires pending == rest + [ref]
    requires AllReached(nodes, evidence, pending) && AllReached(nodes, evidence, more)
    requires Listed(evidence, done, pending)
    requires forall id :: id in seen ==> Listed(Cited(nodes, id), done, pending) || Cited(nodes, id) == more
    ensures AllReached(nodes, evidence, rest + more)
    ensures Listed(evidence, done + {ref}, rest + more)
    ensures forall id :: id in seen ==> Listed(Cited(nodes, id), done + {ref}, rest + more)
  {
    forall r | r in pending
      ensures r in done + {ref} || r in rest + more
    {
      assert r == ref || r in rest;
    }
  }

  ghost predicate Processed(sourceIds: map<string, string>, ref: EvidenceRef, seen: set<string>, found: set<string>) {
    if ref.ofMemory then ref.sourceId in seen
    else ref.sourceId in sourceIds ==> sourceIds[ref.sourceId] in found
  }

  lemma NothingIsMissed(nodes: Store, sourceIds: map<string, string>, evidence: seq<EvidenceRef>,
                        done: set<EvidenceRef>, seen: set<string>, found: set<string>)
    requires Listed(evidence, done, [])
    requires forall r :: r in done ==> Processed(sourceIds, r, seen, found)
    requires forall id :: id in seen ==> Listed(Cited(nodes, id), done, [])
    ensures ReachableTurns(nodes, sourceIds, evidence) <= found
  {
    forall turn | turn in ReachableTurns(nodes, sourceIds, evidence)
      ensures turn in found
    {
      var ref :| Reaches(nodes, evidence, ref) && Names(sourceIds, ref, turn);
      var walk :| IsWalk(nodes, evidence, walk) && walk[|walk| - 1] == ref;
      WalkStaysInside(nodes, evidence, done, walk);
    }
  }

  /** One round: loading the pending layer moves every layer one citation further out. */
  lemma LayerIsLoaded(store: Store, roots: set<string>, round: nat,
                      loaded: set<string>, frontier: set<string>, memories: Store)
    requires AtRound(store, roots, round, loaded, frontier)
    requires memories == map id | id in frontier - loaded && id in store :: store[id]
    ensures AtRound(store, roots, round + 1, loaded + (frontier - loaded), Citations(memories, memories.Keys))
  {
    var pending := frontier - loaded;
    assert Citations(memories, memories.Keys) == Citations(store, pending) by {
      forall id | id in pending
        ensures id in memories ==> Cited(memories, id) == Cited(store, id)
        ensures id !in memories ==> Cited(store, id) == []
      {
      }
    }
    assert Citations(store, loaded + pending) == Citations(store, loaded) + Citations(store, pending);
  }

  lemma RoundZero(store: Store, roots: set<string>, nodes: Store)
    requires nodes == map[]
    ensures AtRound(store, roots, 0, nodes.Keys, roots)
  {
    assert Citations(store, {}) == {};
  }

  lemma RoundsHaveSettled(store: Store, roots: set<string>, round: nat, last: nat,
                          loaded: set<string>, frontier: set<string>)
    requires AtRound(store, roots, round, loaded, frontier) && round <= last
    requires frontier - loaded == {}
    ensures AtRound(store, roots, last, loaded, frontier)
  {
    assert loaded + (frontier - loaded) == loaded;
    WithinSettles(store, roots, round, last);
    WithinSettles(store, roots, round, last + 1);
  }

  lemma RoundsPassTheBudget(store: Store, roots: set<string>, round: nat, last: nat,
                            loaded: set<string>, frontier: set<string>)
    requires AtRound(store, roots, round, loaded, frontier) && round < last
    ensures |loaded| + |frontier - loaded| <= |Within(store, roots, last)|
  {
    var next := Within(store, roots, round + 1);
    WithinGrows(store, roots, round + 1, last);
    CountsAdd(loaded, frontier - loaded, next, Within(store, roots, last));
  }

  lemma CountsAdd<T>(a: set<T>, b: set<T>, both: set<T>, all: set<T>)
    requires a !! b && a + b == both <= all
    ensures |a| + |b| <= |all|
  {
    SubsetIsNoLarger(both, all);
  }

  lemma FrontierIsTheNextLayer(store: Store, roots: set<string>, round: nat,
                               loaded: set<string>, frontier: set<string>)
    requires AtRound(store, roots, round, loaded, frontier)
    ensures loaded == Within(store, roots, round)
    ensures frontier - loaded == {} <==> Within(store, roots, round + 1) == Within(store, roots, round)
  {
    UnionAddsNothing(loaded, frontier - loaded, Within(store, roots, round + 1));
  }

  lemma UnionAddsNothing<T>(a: set<T>, b: set<T>, both: set<T>)
    requires a !! b && a + b == both
    ensures b == {} <==> both == a
  {
  }

  lemma GroupIsLoaded(store: Store, nodes: Store, evidence: seq<seq<EvidenceRef>>, group: seq<EvidenceRef>,
                      rounds: nat)
    requires group in evidence
    requires IsPartOf(nodes, store)
    requires nodes.Keys == Within(store, Roots(evidence), rounds)
    requires nodes.Keys == Within(store, Roots(evidence), rounds + 1)
    ensures IsLoaded(store, nodes, group)
  {
    assert MemoryIds(group) <= Roots(evidence);
  }

  /** The refusals in terms of chains: the depth refusal means some memory is reached by a chain
      of seventeen memories and by no shorter one. */
  lemma DepthRefusalMeansALongChain(store: Store, roots: set<string>)
    ensures Within(store, roots, ROUNDS + 1) != Within(store, roots, ROUNDS) <==>
            exists id :: ChainTo(store, roots, ROUNDS + 1, id) && !ChainTo(store, roots, ROUNDS, id)
  {
    WithinGrows(store, roots, ROUNDS, ROUNDS + 1);
    forall id
      ensures id in Within(store, roots, ROUNDS + 1) <==> ChainTo(store, roots, ROUNDS + 1, id)
      ensures id in Within(store, roots, ROUNDS) <==> ChainTo(store, roots, ROUNDS, id)
    {
      WithinIsChainLength(store, roots, ROUNDS + 1, id);
      WithinIsChainLength(store, roots, ROUNDS, id);
    }
  }

  // ---------------------------------------------------------------- coverage

  datatype DepthCoverage = DepthCoverage(recall: real, complete: bool)

  function ObservationSources(evidence: seq<EvidenceRef>, sourceIds: map<string, string>): set<string> {
    set r | r in evidence && !r.ofMemory && r.sourceId in sourceIds :: sourceIds[r.sourceId]
  }

  function Union(candidates: seq<seq<string>>): set<string> {
    set c, turn | c in candidates && turn in c :: turn
  }

  function Found(candidates: seq<seq<string>>, depth: nat): set<string> {
    Union(Take(candidates, depth))
  }

  function CoverageAt(candidates: seq<seq<string>>, expected: set<string>, depth: nat): DepthCoverage
    requires expected != {}
  {
    var hits := expected * Found(candidates, depth);
    DepthCoverage(|hits| as real / |expected| as real, hits == expected)
  }

  method Coverage(candidates: seq<seq<string>>, gold: seq<string>) returns (out: map<nat, DepthCoverage>)
    ensures out.Keys == if Elements(gold) == {} then {} else DEPTHS
    ensures Elements(gold) != {} ==>
              forall depth :: depth in DEPTHS ==> out[depth] == CoverageAt(candidates, Elements(gold), depth)
  {
    var expected := Elements(gold);
    out := map[];
    if expected == {} {
      return;
    }
    var left := DEPTHS;
    while left != {}
      invariant left <= DEPTHS && out.Keys == DEPTHS - left
      invariant forall depth :: depth in out ==> out[depth] == CoverageAt(candidates, expected, depth)
      decreases left
    {
      var depth :| depth in left;
      left := left - {depth};
      var found: set<string> := {};
      var top := Take(candidates, depth);
      for i := 0 to |top|
        invariant found == Union(top[..i])
      {
        assert forall c :: c in top[..i + 1] <==> c in top[..i] || c == top[i];
        found := found + Elements(top[i]);
      }
      assert top[..|top|] == top;
      var hits := expected * found;
      out := out[depth := DepthCoverage(|hits| as real / |expected| as real, hits == expected)];
    }
  }

  /** A depth counts the gold turns that some of the first `depth` candidates list. */
  lemma CoverageCounts(candidates: seq<seq<string>>, expected: set<string>, depth: nat, hits: set<string>)
    requires expected != {}
    requires forall turn :: turn in hits <==>
               turn in expected && exists i :: 0 <= i < depth && i < |candidates| && turn in candidates[i]
    ensures CoverageAt(candidates, expected, depth).recall == |hits| as real / |expected| as real
    ensures CoverageAt(candidates, expected, depth).complete <==> hits == expected
  {
    forall turn
      ensures turn in hits <==> turn in expected * Found(candidates, depth)
    {
      if turn in hits {
        var i :| 0 <= i < depth && i < |candidates| && turn in candidates[i];
        assert Take(candidates, depth)[i] == candidates[i];
      }
      if turn in Found(candidates, depth) {
        var c :| c in Take(candidates, depth) && turn in c;
        var i :| 0 <= i < |Take(candidates, depth)| && Take(candidates, depth)[i] == c;
        assert candidates[i] == c;
      }
    }
    assert hits == expected * Found(candidates, depth);
  }

  ghost predicate AtLeast(a: DepthCoverage, b: DepthCoverage) {
    a.recall >= b.recall && (b.complete ==> a.complete)
  }

  lemma MoreFoundCoversMore(less: seq<seq<string>>, d: nat, more: seq<seq<string>>, e: nat, expected: set<string>)
    requires expected != {}
    requires Found(less, d) <= Found(more, e)
    ensures AtLeast(CoverageAt(more, expected, e), CoverageAt(less, expected, d))
  {
    var few, many := expected * Found(less, d), expected * Found(more, e);
    SubsetIsNoLarger(few, many);
    assert |few| as real / |expected| as real <= |many| as real / |expected| as real by {
      QuotientGrows(|few| as real, |many| as real, |expected| as real);
    }
  }

  lemma DeeperCoversMore(candidates: seq<seq<string>>, expected: set<string>, d: nat, e: nat)
    requires expected != {} && d <= e
    ensures AtLeast(CoverageAt(candidates, expected, e), CoverageAt(candidates, expected, d))
  {
    forall c | c in Take(candidates, d)
      ensures c in Take(candidates, e)
    {
      var i :| 0 <= i < |Take(candidates, d)| && Take(candidates, d)[i] == c;
      assert Take(candidates, e)[i] == c;
    }
    MoreFoundCoversMore(candidates, d, candidates, e, expected);
  }

  lemma DirectEvidenceIsReachable(store: Store, sourceIds: map<string, string>, group: seq<EvidenceRef>)
    ensures ObservationSources(group, sourceIds) <= ReachableTurns(store, sourceIds, group)
  {
    forall ref | ref in group && !ref.ofMemory && ref.sourceId in sourceIds
      ensures sourceIds[ref.sourceId] in ReachableTurns(store, sourceIds, group)
    {
      ReachesOwnEvidence(store, group, ref);
      ReachableTurnsHolds(store, sourceIds, group, ref);
    }
  }

  /** Expanding citations can only add to what each position is credited with, at any depth. */
  lemma LineageCoversAtLeastDirectEvidence(
      store: Store, sourceIds: map<string, string>, evidence: seq<seq<EvidenceRef>>,
      direct: seq<seq<string>>, lineage: seq<seq<string>>, expected: set<string>, depth: nat)
    requires |direct| == |lineage| == |evidence| && expected != {}
    requires forall g :: 0 <= g < |evidence| ==>
               && Elements(direct[g]) == ObservationSources(evidence[g], sourceIds)
               && Elements(lineage[g]) == ReachableTurns(store, sourceIds, evidence[g])
    ensures AtLeast(CoverageAt(lineage, expected, depth), CoverageAt(direct, expected, depth))
  {
    forall turn | turn in Found(direct, depth)
      ensures turn in Found(lineage, depth)
    {
      var c :| c in Take(direct, depth) && turn in c;
      var g :| 0 <= g < |Take(direct, depth)| && direct[g] == c;
      assert turn in Elements(direct[g]);
      DirectEvidenceIsReachable(store, sourceIds, evidence[g]);
      assert turn in Elements(lineage[g]);
      assert Take(lineage, depth)[g] == lineage[g];
    }
    MoreFoundCoversMore(direct, depth, lineage, depth, expected);
  }
}
