/**
 Node credentials and their background hostname resolution. Every member of `Basic` that runs
 under the lock is one method, so any interleaving of node checks and resolvers is a sequence of
 calls, and what `Valid` says holds between any two of them.
 */
module Resolve {
  import opened Types

  const RESOLVE_THRESHOLD := 3

  datatype ResolveState = Resolved(failures: nat) | InProgress

  datatype Credentials = Credentials(addresses: seq<string>, hostname: Option<string>) {
    predicate CreatedWithAddress() {
      hostname.None? && addresses != []
    }

    predicate ValidInternode() {
      addresses != [] || hostname.Some?
    }
  }

  /** One node's credentials; failures before `protectedUntil` are not counted. */
  datatype Guard = Guard(creds: Credentials, state: ResolveState, protectedUntil: nat) {

    /** `ResolveState::update`. */
    function Updated(authenticated: bool): Guard {
      match state
      case Resolved(n) => this.(state := Resolved(if authenticated then 0 else n + 1))
      case InProgress => this
    }

    /** `update_resolve_state`: the new guard and whether a resolver has to be started. */
    function Update(authenticated: bool, now: nat): (Guard, bool) {
      if creds.CreatedWithAddress() || (!authenticated && now < protectedUntil) then (this, false)
      else
        var g := Updated(authenticated);
        (g, state.Resolved? && !authenticated && g.state.failures >= RESOLVE_THRESHOLD)
    }

    /** `needs_update`. */
    predicate NeedsUpdate(authenticated: bool, now: nat) {
      !creds.CreatedWithAddress()
      && match state
         case Resolved(n) => if authenticated then n > 0 else now >= protectedUntil
         case InProgress => false
    }

    /** Between lock sections: fewer failures than the threshold, and no counting for plain addresses. */
    predicate Settled() {
      && creds.ValidInternode()
      && (state.Resolved? ==> state.failures < RESOLVE_THRESHOLD)
      && (creds.CreatedWithAddress() ==> state == Resolved(0))
      && (state.InProgress? ==> creds.hostname.Some?)
    }
  }

  /** An update is skipped exactly when it would change nothing and start nothing. */
  lemma SkippedUpdateIsNoOp(g: Guard, authenticated: bool, now: nat)
    ensures !g.NeedsUpdate(authenticated, now) <==> g.Update(authenticated, now) == (g, false)
  {
  }

  /** A guard that starts a resolver counted its third failure, has a hostname, and had no resolver before. */
  lemma ResolverStartIsJustified(g: Guard, authenticated: bool, now: nat)
    requires g.Settled() && g.Update(authenticated, now).1
    ensures !authenticated && now >= g.protectedUntil && g.creds.hostname.Some?
    ensures g.state == Resolved(RESOLVE_THRESHOLD - 1)
  {
  }

  function NewGuard(c: Credentials, until: nat): Guard {
    Guard(c, if c.addresses == [] then InProgress else Resolved(0), until)
  }

  /** Exactly one worker for a node being resolved, none for any other node. */
  ghost predicate OneWorkerEach(nodes: map<string, Guard>, workers: multiset<string>) {
    && (forall n | n in nodes :: nodes[n].Settled())
    && (forall n | n in nodes :: workers[n] == if nodes[n].state.InProgress? then 1 else 0)
    && (forall n | n in workers :: n in nodes)
  }

  /** After entering the credentials `done`: fresh guards, and one more worker where no address is known. */
  ghost predicate Entered(nodes: map<string, Guard>, workers: multiset<string>, nodes': map<string, Guard>,
                          workers': multiset<string>, creds: map<string, Credentials>, done: set<string>, until: nat)
    requires done <= creds.Keys
  {
    && nodes'.Keys == nodes.Keys + done
    && (forall n | n in nodes' :: nodes'[n] == if n in done then NewGuard(creds[n], until) else nodes[n])
    && (forall n :: workers'[n] == workers[n] + if n in done && creds[n].addresses == [] then 1 else 0)
  }

  lemma EnteredMore(nodes: map<string, Guard>, workers: multiset<string>, nodes': map<string, Guard>,
                    workers': multiset<string>,
                    creds: map<string, Credentials>, left: set<string>, until: nat, n: string)
    requires left <= creds.Keys && n in left
    requires Entered(nodes, workers, nodes', workers', creds, creds.Keys - left, until)
    ensures Entered(nodes, workers, nodes'[n := NewGuard(creds[n], until)],
                    if creds[n].addresses == [] then workers' + multiset{n} else workers',
                    creds, creds.Keys - (left - {n}), until)
  {
    assert creds.Keys - (left - {n}) == creds.Keys - left + {n};
  }

  lemma EnteredOneWorkerEach(nodes: map<string, Guard>, workers: multiset<string>, nodes': map<string, Guard>,
                             workers': multiset<string>, creds: map<string, Credentials>, until: nat)
    requires OneWorkerEach(nodes, workers) && forall n | n in creds :: creds[n].ValidInternode()
    requires Entered(nodes, workers, nodes', workers', creds, creds.Keys, until)
    ensures OneWorkerEach(nodes', workers') == forall n | n in creds && n in nodes :: nodes[n].state.Resolved?
  {
    if n :| n in creds && n in nodes && nodes[n].state.InProgress? {
      assert n in nodes' && nodes'[n] == NewGuard(creds[n], until) && workers'[n] >= 1;
      if creds[n].addresses == [] {
        assert workers'[n] == 2;
      } else {
        assert nodes'[n].state.Resolved?;
      }
    } else {
      forall n | n in nodes'
        ensures nodes'[n].Settled() && workers'[n] == if nodes'[n].state.InProgress? then 1 else 0
      {
        if n in creds && n !in nodes {
          assert n !in workers;
        }
      }
    }
  }

  // ---- lock sections, in any order ----

  datatype AuthState = AuthState(nodes: map<string, Guard>, workers: multiset<string>)

  /** What one task does while it holds the write lock. */
  datatype Section =
    | AuthResult(name: string, authenticated: bool, time: nat)
    | Resolution(name: string, addresses: seq<string>, time: nat)

  function Processed(s: AuthState, name: string, authenticated: bool, time: nat): AuthState {
    if name !in s.nodes then s
    else
      var (g, start) := s.nodes[name].Update(authenticated, time);
      if start then AuthState(s.nodes[name := g.(state := InProgress)], s.workers + multiset{name})
      else s.(nodes := s.nodes[name := g])
  }

  function Finished(s: AuthState, name: string, addresses: seq<string>, until: nat): AuthState
    requires name in s.nodes
  {
    AuthState(s.nodes[name := Guard(s.nodes[name].creds.(addresses := addresses), Resolved(0), until)],
              s.workers - multiset{name})
  }

  /** A resolver can end only while it runs, and only with addresses. */
  function After(s: AuthState, e: Section, protection: nat): AuthState {
    match e
    case AuthResult(name, authenticated, time) => Processed(s, name, authenticated, time)
    case Resolution(name, addresses, time) =>
      if name in s.workers && addresses != [] && name in s.nodes
      then Finished(s, name, addresses, time + protection)
      else s
  }

  function AfterAll(s: AuthState, sections: seq<Section>, protection: nat): AuthState {
    if sections == [] then s
    else After(AfterAll(s, sections[..|sections| - 1], protection), sections[|sections| - 1], protection)
  }

  /** A section concerns one node: no other guard and no other node's worker changes. */
  ghost predicate OnlyAbout(s: AuthState, s': AuthState, name: string) {
    && s'.nodes.Keys == s.nodes.Keys
    && forall n | n != name :: s'.workers[n] == s.workers[n] && (n in s.nodes ==> s'.nodes[n] == s.nodes[n])
  }

  lemma OneWorkerFrame(s: AuthState, s': AuthState, name: string)
    requires OneWorkerEach(s.nodes, s.workers) && OnlyAbout(s, s', name) && name in s.nodes
    requires s'.nodes[name].Settled() && s'.workers[name] == if s'.nodes[name].state.InProgress? then 1 else 0
    ensures OneWorkerEach(s'.nodes, s'.workers)
  {
    forall n | n in s'.workers ensures n in s'.nodes {
      if n != name {
        assert s.workers[n] == s'.workers[n];
      }
    }
  }

  /** An authentication result touches its node only, keeps its credentials, and keeps the one-worker rule. */
  lemma ProcessedKeeps(s: AuthState, name: string, authenticated: bool, time: nat)
    requires OneWorkerEach(s.nodes, s.workers)
    ensures var s' := Processed(s, name, authenticated, time);
            && OneWorkerEach(s'.nodes, s'.workers) && OnlyAbout(s, s', name)
            && (name in s.nodes ==> s'.nodes[name].creds == s.nodes[name].creds)
  {
    if name in s.nodes {
      var s' := Processed(s, name, authenticated, time);
      if s.nodes[name].Update(authenticated, time).1 {
        ResolverStartIsJustified(s.nodes[name], authenticated, time);
      }
      assert OnlyAbout(s, s', name);
      OneWorkerFrame(s, s', name);
    }
  }

  /**
   A resolver that ends was the only one of its node, which was being resolved; afterwards there is
   none, the node has exactly the addresses found and its hostname, and it is protected anew.
   */
  lemma FinishedKeeps(s: AuthState, name: string, addresses: seq<string>, until: nat)
    requires OneWorkerEach(s.nodes, s.workers) && name in s.workers && addresses != []
    ensures name in s.nodes && s.nodes[name].state.InProgress?
    ensures var s' := Finished(s, name, addresses, until);
            && OneWorkerEach(s'.nodes, s'.workers) && OnlyAbout(s, s', name)
            && s'.workers[name] == 0 && s'.nodes[name].state == Resolved(0)
            && s'.nodes[name].creds == Credentials(addresses, s.nodes[name].creds.hostname)
            && s'.nodes[name].protectedUntil == until
  {
    assert name in s.nodes;
    var s' := Finished(s, name, addresses, until);
    assert OnlyAbout(s, s', name);
    OneWorkerFrame(s, s', name);
  }

  lemma SkippedProcessed(s: AuthState, name: string, authenticated: bool, time: nat)
    requires name in s.nodes ==> !s.nodes[name].NeedsUpdate(authenticated, time)
    ensures Processed(s, name, authenticated, time) == s
  {
    if name in s.nodes {
      SkippedUpdateIsNoOp(s.nodes[name], authenticated, time);
      assert s.nodes[name := s.nodes[name]] == s.nodes;
    }
  }

  lemma AfterKeeps(s: AuthState, e: Section, protection: nat)
    requires OneWorkerEach(s.nodes, s.workers)
    ensures var s' := After(s, e, protection); OneWorkerEach(s'.nodes, s'.workers) && s'.nodes.Keys == s.nodes.Keys
  {
    if e.AuthResult? {
      ProcessedRule(s, e.name, e.authenticated, e.time);
    } else if e.name in s.workers && e.addresses != [] {
      FinishedRule(s, e.name, e.addresses, e.time + protection);
    }
  }

  lemma ProcessedRule(s: AuthState, name: string, authenticated: bool, time: nat)
    requires OneWorkerEach(s.nodes, s.workers)
    ensures var s' := Processed(s, name, authenticated, time);
            OneWorkerEach(s'.nodes, s'.workers) && s'.nodes.Keys == s.nodes.Keys
  {
    ProcessedKeeps(s, name, authenticated, time);
  }

  lemma FinishedRule(s: AuthState, name: string, addresses: seq<string>, until: nat)
    requires OneWorkerEach(s.nodes, s.workers) && name in s.workers && addresses != []
    ensures name in s.nodes
    ensures var s' := Finished(s, name, addresses, until);
            OneWorkerEach(s'.nodes, s'.workers) && s'.nodes.Keys == s.nodes.Keys
  {
    FinishedKeeps(s, name, addresses, until);
  }

  /**
   In every interleaving of checks and resolvers: one worker exactly for nodes being resolved, a
   failure count below the threshold, and the same set of nodes.
   */
  lemma {:induction false} InterleavingKeeps(s: AuthState, sections: seq<Section>, protection: nat)
    requires OneWorkerEach(s.nodes, s.workers)
    ensures var s' := AfterAll(s, sections, protection);
            OneWorkerEach(s'.nodes, s'.workers) && s'.nodes.Keys == s.nodes.Keys
  {
    if sections != [] {
      var k := |sections| - 1;
      InterleavingKeeps(s, sections[..k], protection);
      AfterKeeps(AfterAll(s, sections[..k], protection), sections[k], protection);
    }
  }

  // ---- what becomes of the addresses ----

  /** The section is the end of a resolver of the node. */
  predicate Resolves(s: AuthState, e: Section, name: string) {
    e.Resolution? && e.name == name && e.addresses != [] && name in s.workers
  }

  /** The addresses of the last resolver of the node that ended, or those it had at the beginning. */
  ghost function LastAddresses(s: AuthState, sections: seq<Section>, protection: nat, name: string): seq<string>
    requires name in s.nodes
  {
    if sections == [] then s.nodes[name].creds.addresses
    else
      var k := |sections| - 1;
      if Resolves(AfterAll(s, sections[..k], protection), sections[k], name) then sections[k].addresses
      else LastAddresses(s, sections[..k], protection, name)
  }

  lemma AfterCredentials(s: AuthState, e: Section, protection: nat, name: string)
    requires OneWorkerEach(s.nodes, s.workers) && name in s.nodes
    ensures name in After(s, e, protection).nodes
    ensures After(s, e, protection).nodes[name].creds
         == Credentials(if Resolves(s, e, name) then e.addresses else s.nodes[name].creds.addresses,
                        s.nodes[name].creds.hostname)
  {
    if e.AuthResult? {
      ProcessedKeeps(s, e.name, e.authenticated, e.time);
    } else if e.name in s.workers && e.addresses != [] {
      FinishedKeeps(s, e.name, e.addresses, e.time + protection);
    }
  }

  /** In every interleaving a node has its hostname and the addresses of its last resolution. */
  lemma {:induction false} CredentialsFollow(s: AuthState, sections: seq<Section>, protection: nat, name: string)
    requires OneWorkerEach(s.nodes, s.workers) && name in s.nodes
    ensures name in AfterAll(s, sections, protection).nodes
    ensures AfterAll(s, sections, protection).nodes[name].creds
         == Credentials(LastAddresses(s, sections, protection, name), s.nodes[name].creds.hostname)
  {
    if sections != [] {
      var k := |sections| - 1;
      InterleavingKeeps(s, sections[..k], protection);
      CredentialsFollow(s, sections[..k], protection, name);
      AfterCredentials(AfterAll(s, sections[..k], protection), sections[k], protection, name);
    }
  }

  /** No section ends a resolver of the node. */
  predicate NoResolution(sections: seq<Section>, name: string) {
    forall e | e in sections :: !(e.Resolution? && e.name == name)
  }

  lemma {:induction false} AddressesStay(s: AuthState, sections: seq<Section>, protection: nat, name: string)
    requires name in s.nodes && NoResolution(sections, name)
    ensures LastAddresses(s, sections, protection, name) == s.nodes[name].creds.addresses
  {
    if sections != [] {
      var k := |sections| - 1;
      assert sections[k] in sections && forall e | e in sections[..k] :: e in sections;
      AddressesStay(s, sections[..k], protection, name);
    }
  }

  /** Authentication results of the node before a time are not counted unless they succeeded. */
  predicate OnlyEarlyFailures(sections: seq<Section>, name: string, until: nat) {
    forall e | e in sections && e.AuthResult? && e.name == name :: e.authenticated || e.time < until
  }

  lemma EarlyFailureIgnored(s: AuthState, e: Section, protection: nat, name: string)
    requires OneWorkerEach(s.nodes, s.workers) && name in s.nodes && s.nodes[name].state == Resolved(0)
    requires e.AuthResult? && e.name == name ==> e.authenticated || e.time < s.nodes[name].protectedUntil
    ensures var s' := After(s, e, protection); name in s'.nodes && s'.nodes[name] == s.nodes[name]
  {
    if e.AuthResult? {
      ProcessedKeeps(s, e.name, e.authenticated, e.time);
    } else if e.name in s.workers && e.addresses != [] {
      FinishedKeeps(s, e.name, e.addresses, e.time + protection);
    }
  }

  /** While a resolved node is protected, failures change nothing of it and start no resolver. */
  lemma {:induction false} ProtectedStays(s: AuthState, sections: seq<Section>, protection: nat, name: string)
    requires OneWorkerEach(s.nodes, s.workers) && name in s.nodes && s.nodes[name].state == Resolved(0)
    requires OnlyEarlyFailures(sections, name, s.nodes[name].protectedUntil)
    ensures var s' := AfterAll(s, sections, protection);
            name in s'.nodes && s'.nodes[name] == s.nodes[name] && s'.workers[name] == 0
  {
    if sections != [] {
      var k := |sections| - 1;
      assert sections[k] in sections && forall e | e in sections[..k] :: e in sections;
      InterleavingKeeps(s, sections[..k], protection);
      ProtectedStays(s, sections[..k], protection, name);
      EarlyFailureIgnored(AfterAll(s, sections[..k], protection), sections[k], protection, name);
      AfterKeeps(AfterAll(s, sections[..k], protection), sections[k], protection);
    }
  }

  /** Failed results of the node from `until` on, since its last success. */
  function FailuresInARow(sections: seq<Section>, name: string, until: nat): nat {
    if sections == [] then 0
    else
      var before, e := FailuresInARow(sections[..|sections| - 1], name, until), sections[|sections| - 1];
      if !e.AuthResult? || e.name != name then before
      else if e.authenticated then 0
      else if e.time < until then before
      else before + 1
  }

  /** At some point the failures in a row had reached the threshold. */
  ghost predicate FailedEnough(sections: seq<Section>, name: string, until: nat) {
    exists k | 0 <= k <= |sections| :: FailuresInARow(sections[..k], name, until) >= RESOLVE_THRESHOLD
  }

  lemma FailedEnoughNext(sections: seq<Section>, name: string, until: nat)
    requires sections != []
    ensures FailedEnough(sections, name, until)
       <==> || FailedEnough(sections[..|sections| - 1], name, until)
            || FailuresInARow(sections, name, until) >= RESOLVE_THRESHOLD
  {
    var n := |sections| - 1;
    var init := sections[..n];
    assert sections[..|sections|] == sections;
    forall k | 0 <= k <= n ensures init[..k] == sections[..k] {
    }
    if FailedEnough(init, name, until) {
      var k :| 0 <= k <= |init| && FailuresInARow(init[..k], name, until) >= RESOLVE_THRESHOLD;
      assert FailuresInARow(sections[..k], name, until) >= RESOLVE_THRESHOLD;
    }
    if FailedEnough(sections, name, until) {
      var k :| 0 <= k <= |sections| && FailuresInARow(sections[..k], name, until) >= RESOLVE_THRESHOLD;
      if k <= n {
        assert FailuresInARow(init[..k], name, until) >= RESOLVE_THRESHOLD;
      }
    }
  }

  ghost function CountedState(sections: seq<Section>, name: string, until: nat): ResolveState {
    if FailedEnough(sections, name, until) then InProgress else Resolved(FailuresInARow(sections, name, until))
  }

  lemma CountOne(s: AuthState, before: seq<Section>, e: Section, protection: nat, name: string, all: seq<Section>)
    requires OneWorkerEach(s.nodes, s.workers) && name in s.nodes && s.nodes[name].creds.hostname.Some?
    requires !(e.Resolution? && e.name == name) && all == before + [e]
    requires s.nodes[name].state == CountedState(before, name, s.nodes[name].protectedUntil)
    ensures var s' := After(s, e, protection);
            && name in s'.nodes && s'.nodes[name].protectedUntil == s.nodes[name].protectedUntil
            && s'.nodes[name].state == CountedState(all, name, s.nodes[name].protectedUntil)
  {
    if e.AuthResult? && e.name == name {
      CountOwn(s, before, e, name, all);
    } else {
      CountNone(before, e, name, s.nodes[name].protectedUntil, all);
      OthersStay(s, e, protection, name);
    }
  }

  lemma CountOwn(s: AuthState, before: seq<Section>, e: Section, name: string, all: seq<Section>)
    requires name in s.nodes && s.nodes[name].creds.hostname.Some?
    requires e.AuthResult? && e.name == name && all == before + [e]
    requires s.nodes[name].state == CountedState(before, name, s.nodes[name].protectedUntil)
    ensures var s' := Processed(s, name, e.authenticated, e.time);
            && name in s'.nodes && s'.nodes[name].protectedUntil == s.nodes[name].protectedUntil
            && s'.nodes[name].state == CountedState(all, name, s.nodes[name].protectedUntil)
  {
    FailedEnoughNext(all, name, s.nodes[name].protectedUntil);
    assert all[..|all| - 1] == before && before[..|before|] == before;
  }

  lemma CountNone(before: seq<Section>, e: Section, name: string, until: nat, all: seq<Section>)
    requires !(e.AuthResult? && e.name == name) && all == before + [e]
    ensures CountedState(all, name, until) == CountedState(before, name, until)
  {
    FailedEnoughNext(all, name, until);
    assert all[..|all| - 1] == before && before[..|before|] == before;
  }

  lemma OthersStay(s: AuthState, e: Section, protection: nat, name: string)
    requires OneWorkerEach(s.nodes, s.workers) && name in s.nodes && e.name != name
    ensures var s' := After(s, e, protection); name in s'.nodes && s'.nodes[name] == s.nodes[name]
  {
    if e.AuthResult? {
      ProcessedKeeps(s, e.name, e.authenticated, e.time);
    } else if e.name in s.workers && e.addresses != [] {
      FinishedKeeps(s, e.name, e.addresses, e.time + protection);
    }
  }

  /**
   In every interleaving: a resolved node with a hostname has counted exactly its failures in a row
   since it stopped being protected, and its resolver was started exactly if these reached the threshold.
   */
  lemma {:induction false} FailuresCounted(s: AuthState, sections: seq<Section>, protection: nat, name: string)
    requires OneWorkerEach(s.nodes, s.workers) && name in s.nodes && s.nodes[name].creds.hostname.Some?
    requires s.nodes[name].state == Resolved(0) && NoResolution(sections, name)
    ensures var s' := AfterAll(s, sections, protection);
            && name in s'.nodes && s'.nodes[name].protectedUntil == s.nodes[name].protectedUntil
            && s'.nodes[name].state == CountedState(sections, name, s.nodes[name].protectedUntil)
            && s'.workers[name] == if FailedEnough(sections, name, s.nodes[name].protectedUntil) then 1 else 0
  {
    InterleavingKeeps(s, sections, protection);
    if sections != [] {
      var k := |sections| - 1;
      Unsnoc(sections);
      assert sections[k] in sections && forall e | e in sections[..k] :: e in sections;
      FailuresCounted(s, sections[..k], protection, name);
      InterleavingKeeps(s, sections[..k], protection);
      CredentialsFollow(s, sections[..k], protection, name);
      CountOne(AfterAll(s, sections[..k], protection), sections[..k], sections[k], protection, name, sections);
    } else {
      assert forall k | 0 <= k <= |sections| :: FailuresInARow(sections[..k], name, s.nodes[name].protectedUntil) == 0;
    }
  }

  class Basic {
    const protection: nat
    var nodes: map<string, Guard>
    var workers: multiset<string>    // running resolve workers, by node name

    ghost predicate Valid()
      reads this
    {
      OneWorkerEach(nodes, workers)
    }

    constructor (protection: nat)
      ensures Valid() && nodes == map[] && workers == multiset{} && this.protection == protection
    {
      this.protection := protection;
      nodes, workers := map[], multiset{};
    }

    /**
     `set_nodes_credentials`. Hostnames without an address are resolved in the background from the
     beginning. Called again, it starts a second resolver for a node that is being resolved; the
     one-worker rule survives exactly if no such node is named.
     */
    method SetNodesCredentials(creds: map<string, Credentials>, time: nat) returns (ok: bool)
      requires Valid()
      modifies this`nodes, this`workers
      ensures ok <==> forall n | n in creds :: creds[n].ValidInternode()
      ensures ok ==> Entered(old(nodes), old(workers), nodes, workers, creds, creds.Keys, time + protection)
      ensures ok ==> forall n | n in creds ::
                && n in nodes && nodes[n].creds == creds[n] && nodes[n].protectedUntil == time + protection
                && nodes[n].state == if creds[n].addresses == [] then InProgress else Resolved(0)
      ensures !ok ==> nodes == old(nodes) && workers == old(workers)
      ensures Valid() == (!ok || forall n | n in creds && n in old(nodes) :: old(nodes)[n].state.Resolved?)
    {
      ok := forall n | n in creds :: creds[n].ValidInternode();
      if ok {
        var left := creds.Keys;
        while left != {}
          invariant left <= creds.Keys
          invariant Entered(old(nodes), old(workers), nodes, workers, creds, creds.Keys - left, time + protection)
          decreases left
        {
          var n :| n in left;
          EnteredMore(old(nodes), old(workers), nodes, workers, creds, left, time + protection, n);
          EnterOne(creds, n, time);
          left := left - {n};
        }
        assert creds.Keys - left == creds.Keys;
        EnteredOneWorkerEach(old(nodes), old(workers), nodes, workers, creds, time + protection);
      }
    }

    method EnterOne(creds: map<string, Credentials>, n: string, time: nat)
      requires n in creds && creds[n].ValidInternode()
      modifies this`nodes, this`workers
      ensures nodes == old(nodes)[n := NewGuard(creds[n], time + protection)]
      ensures workers == if creds[n].addresses == [] then old(workers) + multiset{n} else old(workers)
    {
      var c := creds[n];
      var guard := Guard(c, Resolved(0), time + protection);
      if c.addresses == [] && c.hostname.Some? {
        guard := guard.(state := InProgress);
        nodes := nodes[n := guard];
        workers := workers + multiset{n};
      } else {
        nodes := nodes[n := guard];
      }
    }

    ghost function Value(): AuthState
      reads this
    {
      AuthState(nodes, workers)
    }

    /** `process_auth_result`, some time after the read section that asked for it. */
    method ProcessAuthResult(name: string, authenticated: bool, time: nat)
      requires Valid()
      modifies this`nodes, this`workers
      ensures Valid() && Value() == Processed(old(Value()), name, authenticated, time)
    {
      ghost var before := Value();
      if name in nodes {
        var (g, start) := nodes[name].Update(authenticated, time);
        nodes := nodes[name := g];
        if start {
          nodes := nodes[name := g.(state := InProgress)];
          workers := workers + multiset{name};
        }
      }
      assert Value() == Processed(before, name, authenticated, time);
      ProcessedKeeps(before, name, authenticated, time);
    }

    /** The end of a `resolve_worker`, which only leaves its loop with addresses. */
    method WorkerDone(name: string, addresses: seq<string>, time: nat)
      requires Valid() && name in workers && addresses != []
      modifies this`nodes, this`workers
      ensures name in old(nodes) && Valid() && Value() == Finished(old(Value()), name, addresses, time + protection)
      ensures name in nodes && nodes[name].creds == Credentials(addresses, old(nodes)[name].creds.hostname)
      ensures nodes[name].state == Resolved(0) && nodes[name].protectedUntil == time + protection
    {
      FinishedKeeps(Value(), name, addresses, time + protection);
      var g := nodes[name];
      workers := workers - multiset{name};
      nodes := nodes[name := Guard(g.creds.(addresses := addresses), Resolved(0), time + protection)];
    }

    method OneSection(e: Section)
      requires Valid()
      modifies this`nodes, this`workers
      ensures Valid() && Value() == After(old(Value()), e, protection)
    {
      match e
      case AuthResult(name, authenticated, time) => ProcessAuthResult(name, authenticated, time);
      case Resolution(name, addresses, time) =>
        if name in workers && addresses != [] {
          WorkerDone(name, addresses, time);
        }
    }

    /** Sections of other tasks, between two sections of one task. */
    method Others(sections: seq<Section>)
      requires Valid()
      modifies this`nodes, this`workers
      ensures Valid() && Value() == AfterAll(old(Value()), sections, protection)
    {
      for k := 0 to |sections|
        invariant Valid() && Value() == AfterAll(old(Value()), sections[..k], protection)
      {
        assert sections[..k + 1][..k] == sections[..k];
        OneSection(sections[k]);
      }
      assert sections[..|sections|] == sections;
    }

    /**
     `check_node_request`: a look under the read lock, other tasks, and an update under the write
     lock only if the look called for one. The answer is that of the addresses known at the look.
     Had the update been made in any case, as a check under one write lock would, the outcome for
     undisturbed checks would be the same.
     */
    method CheckNodeRequest(name: string, ip: Option<string>, time: nat, between: seq<Section>, later: nat)
      returns (authenticated: bool)
      requires Valid()
      modifies this`nodes, this`workers
      ensures Valid()
      ensures authenticated <==> ip.Some? && name in old(nodes) && ip.value in old(nodes)[name].creds.addresses
      ensures ip.None? ==> Value() == old(Value())
      ensures between == [] && later == time && ip.Some? ==>
                Value() == Processed(old(Value()), name, authenticated, time)
      ensures ip.Some? ==>
                Value() == if name in old(nodes) && old(nodes)[name].NeedsUpdate(authenticated, time)
                           then Processed(AfterAll(old(Value()), between, protection), name, authenticated, later)
                           else AfterAll(old(Value()), between, protection)
    {
      authenticated := false;
      if ip.None? {
        return;
      }
      var needsUpdate := false;
      if name in nodes {
        authenticated := ip.value in nodes[name].creds.addresses;
        needsUpdate := nodes[name].NeedsUpdate(authenticated, time);
        SkippedUpdateIsNoOp(nodes[name], authenticated, time);
      }
      if !needsUpdate {
        SkippedProcessed(Value(), name, authenticated, time);
      }
      Others(between);
      if needsUpdate {
        ProcessAuthResult(name, authenticated, later);
      }
    }

    /**
     A resolver ends, any other sections follow, and the node is checked: it is authenticated exactly
     for the addresses found, whatever happened before and whatever other nodes do.
     */
    method ResolveThenCheck(name: string, addresses: seq<string>, time: nat, sections: seq<Section>,
                            ip: Option<string>, at: nat)
      returns (authenticated: bool)
      requires Valid() && name in workers && addresses != [] && NoResolution(sections, name)
      modifies this`nodes, this`workers
      ensures Valid()
      ensures authenticated <==> ip.Some? && ip.value in addresses
      ensures name in old(nodes) && name in nodes
      ensures nodes[name].creds == Credentials(addresses, old(nodes)[name].creds.hostname)
      ensures OnlyEarlyFailures(sections, name, time + protection) && at < time + protection ==>
                nodes[name].state == Resolved(0) && workers[name] == 0
    {
      WorkerDone(name, addresses, time);
      ghost var resolved := Value();
      AddressesStay(resolved, sections, protection, name);
      CredentialsFollow(resolved, sections, protection, name);
      if OnlyEarlyFailures(sections, name, time + protection) {
        ProtectedStays(resolved, sections, protection, name);
      }
      Others(sections);
      ghost var before := Value();
      authenticated := CheckNodeRequest(name, ip, at, [], at);
      if ip.Some? {
        ProcessedKeeps(before, name, authenticated, at);
        if OnlyEarlyFailures(sections, name, time + protection) && at < time + protection {
          EarlyFailureIgnored(before, AuthResult(name, authenticated, at), protection, name);
        }
      }
    }
  }
}
