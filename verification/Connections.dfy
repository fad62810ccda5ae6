/**
 `ConnectionManager` as a concurrent protocol. `register`, `unregister` and `kick_user`
 each touch two shared maps, one atomic step at a time, and their steps interleave
 freely. A kick holds a read guard on the user's index entry while it visits the
 connections, so that entry cannot change until the kick ends.

 `unregister` is called by the guard that `process_tunnel` creates after `register`
 returned, once per connection.
 */
module Connections {
  type User = int
  type Id = nat

  /** A kick under way: the ids found in the entry, those still to visit, and those cancelled. */
  datatype Kick = Kick(user: User, taken: set<Id>, todo: set<Id>, hits: set<Id>)

  /** Where a connection id stands between `register` and `unregister`. */
  datatype Stage =
    | Allocated  // has an id, not yet in the primary map
    | Stored     // in the primary map, not yet in the index
    | Live       // `register` returned
    | Leaving    // out of the primary map, still in the index
    | Gone

  /**
   The shared state: the id counter, the primary map, the index, and which tokens are
   cancelled. `stage`, `owner` and `kicks` say where every operation stands.
   */
  datatype World = World(next: Id, conns: map<Id, User>, index: map<User, set<Id>>, cancelled: set<Id>,
                         stage: map<Id, Stage>, owner: map<Id, User>, kicks: map<nat, Kick>)

  const Empty := World(1, map[], map[], {}, map[], map[], map[])

  datatype Action =
    | Allocate(u: User)
    | Store(id: Id)
    | Enter(id: Id)
    | Remove(id: Id)
    | Leave(id: Id)
    | StartKick(k: nat, u: User)
    | Visit(k: nat, id: Id)
    | EndKick(k: nat)
    | CancelOne(id: Id)

  /** A kick of the user is under way, so the user's index entry is guarded. */
  predicate Guarded(w: World, u: User) {
    exists k :: k in w.kicks && w.kicks[k].user == u
  }

  predicate At(w: World, id: Id, s: Stage) {
    id in w.stage && id in w.owner && w.stage[id] == s
  }

  predicate Enabled(w: World, a: Action) {
    match a
    case Allocate(_) => true
    case Store(id) => At(w, id, Allocated)
    case Enter(id) => At(w, id, Stored) && !Guarded(w, w.owner[id])
    case Remove(id) => At(w, id, Live)
    case Leave(id) => At(w, id, Leaving) && !Guarded(w, w.owner[id])
    case StartKick(k, u) => k !in w.kicks && u in w.index
    case Visit(k, id) => k in w.kicks && id in w.kicks[k].todo
    case EndKick(k) => k in w.kicks && w.kicks[k].todo == {}
    case CancelOne(id) => id in w.conns
  }

  function Entry(index: map<User, set<Id>>, u: User): set<Id> {
    if u in index then index[u] else {}
  }

  /** `remove_if_mut`: take the id out of the entry, and drop the entry if that emptied it. */
  function Unindexed(index: map<User, set<Id>>, u: User, id: Id): map<User, set<Id>> {
    if u !in index then index
    else if index[u] - {id} == {} then index - {u}
    else index[u := index[u] - {id}]
  }

  function Apply(w: World, a: Action): World
    requires Enabled(w, a)
  {
    match a
    case Allocate(u) =>
      w.(next := w.next + 1, stage := w.stage[w.next := Allocated], owner := w.owner[w.next := u])
    case Store(id) =>
      w.(conns := w.conns[id := w.owner[id]], stage := w.stage[id := Stored])
    case Enter(id) =>
      var u := w.owner[id];
      w.(index := w.index[u := Entry(w.index, u) + {id}], stage := w.stage[id := Live])
    case Remove(id) =>
      w.(conns := w.conns - {id}, stage := w.stage[id := if id in w.conns then Leaving else Gone])
    case Leave(id) =>
      w.(index := Unindexed(w.index, w.owner[id], id), stage := w.stage[id := Gone])
    case StartKick(k, u) =>
      w.(kicks := w.kicks[k := Kick(u, w.index[u], w.index[u], {})])
    case Visit(k, id) =>
      var kick := w.kicks[k].(todo := w.kicks[k].todo - {id});
      if id in w.conns then
        w.(kicks := w.kicks[k := kick.(hits := kick.hits + {id})], cancelled := w.cancelled + {id})
      else w.(kicks := w.kicks[k := kick])
    case EndKick(k) => w.(kicks := w.kicks - {k})
    case CancelOne(id) => w.(cancelled := w.cancelled + {id})
  }

  /** Ids below the counter, and no others, are in use; the primary map holds the stored and live ones, under their owner. */
  predicate Staged(w: World, id: Id) {
    && (id in w.stage <==> 1 <= id < w.next)
    && (id in w.owner <==> id in w.stage)
    && (id in w.conns <==> At(w, id, Stored) || At(w, id, Live))
    && (id in w.conns ==> w.conns[id] == w.owner[id])
  }

  /** The user's entry holds the id exactly if it is a live or leaving id of the user. */
  predicate Filed(w: World, u: User, id: Id) {
    id in Entry(w.index, u) <==> (At(w, id, Live) || At(w, id, Leaving)) && w.owner[id] == u
  }

  /** A kick works on the whole, unchanged entry. */
  predicate Faithful(w: World, k: nat)
    requires k in w.kicks
  {
    var kick := w.kicks[k];
    && kick.user in w.index
    && kick.taken == w.index[kick.user]
    && kick.todo <= kick.taken
    && kick.hits <= kick.taken
    && kick.hits !! kick.todo
    && kick.hits <= w.cancelled
  }

  /** What a kick has visited it cancelled, unless it was already gone. */
  predicate Visited(w: World, k: nat, id: Id)
    requires k in w.kicks
  {
    id in w.kicks[k].taken && id !in w.kicks[k].todo && id !in w.kicks[k].hits ==> At(w, id, Leaving)
  }

  ghost predicate Inv(w: World) {
    && w.next >= 1
    && (forall id :: Staged(w, id))
    && (forall u, id :: Filed(w, u, id))
    && (forall u :: u in w.index ==> w.index[u] != {})
    && (forall k :: k in w.kicks ==> Faithful(w, k))
    && (forall k, id :: k in w.kicks ==> Visited(w, k, id))
  }

  lemma StagedKept(w: World, a: Action, id: Id)
    requires Enabled(w, a) && w.next >= 1 && Staged(w, id) && Staged(w, w.next)
    ensures Staged(Apply(w, a), id)
  {
  }

  lemma FiledKept(w: World, a: Action, u: User, id: Id)
    requires Enabled(w, a) && Staged(w, id) && Filed(w, u, id)
    ensures Filed(Apply(w, a), u, id)
  {
  }

  /** A guarded entry is not touched by anyone. */
  lemma GuardedEntryKept(w: World, a: Action, u: User)
    requires Enabled(w, a) && u in w.index && Guarded(w, u)
    ensures u in Apply(w, a).index && Apply(w, a).index[u] == w.index[u]
  {
  }

  lemma FaithfulKept(w: World, a: Action, k: nat)
    requires Enabled(w, a) && k in w.kicks && Faithful(w, k) && k in Apply(w, a).kicks
    ensures Faithful(Apply(w, a), k)
  {
    GuardedEntryKept(w, a, w.kicks[k].user);
  }

  lemma VisitedKept(w: World, a: Action, k: nat, id: Id)
    requires Enabled(w, a) && k in w.kicks && k in Apply(w, a).kicks
    requires Faithful(w, k) && Visited(w, k, id) && Staged(w, id) && Filed(w, w.kicks[k].user, id)
    ensures Visited(Apply(w, a), k, id)
  {
  }

  lemma StepKeepsInv(w: World, a: Action)
    requires Inv(w) && Enabled(w, a)
    ensures Inv(Apply(w, a))
  {
    var w' := Apply(w, a);
    forall id ensures Staged(w', id) {
      assert Staged(w, id) && Staged(w, w.next);
      StagedKept(w, a, id);
    }
    forall u, id ensures Filed(w', u, id) {
      assert Staged(w, id) && Filed(w, u, id);
      FiledKept(w, a, u, id);
    }
    forall k | k in w'.kicks ensures Faithful(w', k) {
      if k in w.kicks {
        FaithfulKept(w, a, k);
      }
    }
    forall k, id | k in w'.kicks ensures Visited(w', k, id) {
      if k in w.kicks {
        assert Staged(w, id) && Filed(w, w.kicks[k].user, id);
        VisitedKept(w, a, k, id);
      }
    }
  }

  /** A history: consecutive states joined by enabled actions, starting from the empty manager. */
  ghost predicate IsHistory(worlds: seq<World>, actions: seq<Action>) {
    && |worlds| == |actions| + 1
    && worlds[0] == Empty
    && (forall i :: 0 <= i < |actions| ==> Enabled(worlds[i], actions[i]) && worlds[i + 1] == Apply(worlds[i], actions[i]))
  }

  /** Every reachable state, under every interleaving, is consistent. */
  lemma {:induction false} AlwaysConsistent(worlds: seq<World>, actions: seq<Action>, i: nat)
    requires IsHistory(worlds, actions) && i < |worlds|
    ensures Inv(worlds[i])
  {
    if i > 0 {
      AlwaysConsistent(worlds, actions, i - 1);
      var w, a := worlds[i - 1], actions[i - 1];
      assert worlds[i - 1 + 1] == Apply(w, a);
      StepKeepsInv(w, a);
    }
  }

  /**
   In every reachable state the index and the primary map agree, except on ids whose own
   register or unregister is between its two steps, and no user has an empty entry.
   */
  lemma IndexAgrees(worlds: seq<World>, actions: seq<Action>, i: nat, u: User, id: Id)
    requires IsHistory(worlds, actions) && i < |worlds|
    ensures var w := worlds[i];
            && (u in w.index ==> w.index[u] != {})
            && (!At(w, id, Stored) && !At(w, id, Leaving) ==>
                  (id in Entry(w.index, u) <==> id in w.conns && w.conns[id] == u))
  {
    AlwaysConsistent(worlds, actions, i);
    assert Staged(worlds[i], id) && Filed(worlds[i], u, id);
  }

  /** No operation is between two of its steps. */
  ghost predicate Settled(w: World) {
    && w.kicks == map[]
    && forall id :: id in w.stage ==> w.stage[id] == Live || w.stage[id] == Gone
  }

  /** At rest the two maps are exact inverses of each other, and only users with connections have an entry. */
  lemma SettledMeansInverse(w: World, u: User)
    requires Inv(w) && Settled(w)
    ensures Entry(w.index, u) == Own(w.conns, u)
    ensures u in w.index <==> Own(w.conns, u) != {}
  {
    forall id ensures id in Entry(w.index, u) <==> id in w.conns && w.conns[id] == u {
      assert Staged(w, id) && Filed(w, u, id);
    }
  }

  lemma StepKeepsOwners(w: World, a: Action)
    requires Inv(w) && Enabled(w, a)
    ensures Extends(w, Apply(w, a))
  {
    assert Staged(w, w.next);
    forall id | id in w.owner ensures SameOwner(w, Apply(w, a), id) {
    }
  }

  /** What no step takes back. */
  ghost predicate Extends(w: World, w': World) {
    && w.next <= w'.next
    && w.cancelled <= w'.cancelled
    && w.owner.Keys <= w'.owner.Keys
    && forall id :: id in w.owner ==> SameOwner(w, w', id)
  }

  predicate SameOwner(w: World, w': World, id: Id) {
    id in w.owner && id in w'.owner && w'.owner[id] == w.owner[id]
  }

  lemma ExtendsThen(w: World, w': World, w'': World)
    requires Extends(w, w') && Extends(w', w'')
    ensures Extends(w, w'')
  {
    forall id | id in w.owner ensures SameOwner(w, w'', id) {
      assert SameOwner(w, w', id) && SameOwner(w', w'', id);
    }
  }

  lemma ExtendsItself(w: World)
    ensures Extends(w, w)
  {
    forall id | id in w.owner ensures SameOwner(w, w, id) {
    }
  }

  /** Every step of a history extends the state before it. */
  lemma HistoryExtends(worlds: seq<World>, actions: seq<Action>, i: nat)
    requires IsHistory(worlds, actions) && i < |actions|
    ensures Extends(worlds[i], worlds[i + 1])
  {
    AlwaysConsistent(worlds, actions, i);
    StepKeepsOwners(worlds[i], actions[i]);
  }

  lemma {:induction false} ExtendsChain(worlds: seq<World>, i: nat, j: nat)
    requires i <= j < |worlds|
    requires forall m :: 0 <= m < |worlds| - 1 ==> Extends(worlds[m], worlds[m + 1])
    ensures Extends(worlds[i], worlds[j])
    decreases j - i
  {
    if i == j {
      ExtendsItself(worlds[i]);
    } else {
      ExtendsChain(worlds, i, j - 1);
      assert Extends(worlds[j - 1], worlds[j - 1 + 1]);
      ExtendsThen(worlds[i], worlds[j - 1], worlds[j]);
    }
  }

  /** Ids are handed out once: an owner never changes, the counter never falls back, and no cancellation is undone. */
  lemma OwnersAreForever(worlds: seq<World>, actions: seq<Action>, i: nat, j: nat)
    requires IsHistory(worlds, actions) && i <= j < |worlds|
    ensures Extends(worlds[i], worlds[j])
  {
    forall m | 0 <= m < |worlds| - 1 ensures Extends(worlds[m], worlds[m + 1]) {
      HistoryExtends(worlds, actions, m);
    }
    ExtendsChain(worlds, i, j);
  }

  /** A kick cancels only connections of its own user. */
  lemma KickSparesOthers(w: World, k: nat, id: Id)
    requires Inv(w) && Enabled(w, Visit(k, id))
    ensures id in w.owner && w.owner[id] == w.kicks[k].user
    ensures Apply(w, Visit(k, id)).cancelled == w.cancelled + if id in w.conns then {id} else {}
  {
    assert Faithful(w, k);
    assert Filed(w, w.kicks[k].user, id);
  }

  /**
   From the moment a kick takes the user's entry until it ends, the entry is the one it
   took: no registration of the user can finish and no id can leave the index meanwhile.
   */
  lemma {:induction false} KickHoldsItsEntry(worlds: seq<World>, actions: seq<Action>, i: nat, j: nat, k: nat)
    requires IsHistory(worlds, actions) && i < j < |worlds|
    requires actions[i].StartKick? && actions[i].k == k
    requires forall m :: i < m < j ==> actions[m] != EndKick(k)
    ensures k in worlds[j].kicks && worlds[j].kicks[k].user == actions[i].u
    ensures actions[i].u in worlds[i].index && worlds[j].kicks[k].taken == worlds[i].index[actions[i].u]
    decreases j
  {
    assert Enabled(worlds[i], actions[i]) && worlds[i + 1] == Apply(worlds[i], actions[i]);
    if i + 1 < j {
      KickHoldsItsEntry(worlds, actions, i, j - 1, k);
      assert Enabled(worlds[j - 1], actions[j - 1]) && worlds[j - 1 + 1] == Apply(worlds[j - 1], actions[j - 1]);
    }
  }

  /**
   When a kick ends, every connection it found was cancelled or had already left the
   primary map; in particular every connection of the user that is still live is
   cancelled. If none of the user's is on its way in or out, what it cancelled and counts
   is exactly what the primary map holds for the user.
   */
  lemma KickIsExact(w: World, k: nat)
    requires Inv(w) && k in w.kicks && w.kicks[k].todo == {}
    ensures var kick := w.kicks[k];
            && (forall id :: id in kick.taken ==> id in kick.hits || At(w, id, Leaving))
            && (forall id :: At(w, id, Live) && w.owner[id] == kick.user ==> id in kick.hits && id in w.cancelled)
            && ((forall id :: At(w, id, Leaving) || At(w, id, Stored) ==> w.owner[id] != kick.user) ==>
                  kick.hits == Own(w.conns, kick.user))
  {
    var kick := w.kicks[k];
    assert Faithful(w, k);
    forall id ensures id in kick.taken <==> (At(w, id, Live) || At(w, id, Leaving)) && w.owner[id] == kick.user {
      assert Filed(w, kick.user, id);
    }
    forall id | id in kick.taken ensures id in kick.hits || At(w, id, Leaving) {
      assert Visited(w, k, id);
    }
    forall id ensures id in w.conns <==> At(w, id, Stored) || At(w, id, Live) {
      assert Staged(w, id);
    }
    forall id | id in w.conns ensures w.conns[id] == w.owner[id] {
      assert Staged(w, id);
    }
  }

  /** The step cancels the token of the id: the cancellation of everything, or a kick that finds the connection present. */
  predicate Cancels(w: World, a: Action, id: Id) {
    a == CancelOne(id) || (a.Visit? && a.id == id && id in w.conns)
  }

  lemma StepCancels(w: World, a: Action, id: Id)
    requires Enabled(w, a)
    ensures id in Apply(w, a).cancelled <==> id in w.cancelled || Cancels(w, a, id)
  {
  }

  /** A token is cancelled exactly if some step was meant to: registering and unregistering never cancel anything. */
  lemma {:induction false} CancelledIff(worlds: seq<World>, actions: seq<Action>, i: nat, id: Id)
    requires IsHistory(worlds, actions) && i < |worlds|
    ensures id in worlds[i].cancelled <==> exists m :: 0 <= m < i && Cancels(worlds[m], actions[m], id)
  {
    if i > 0 {
      CancelledIff(worlds, actions, i - 1, id);
      assert worlds[i - 1 + 1] == Apply(worlds[i - 1], actions[i - 1]);
      StepCancels(worlds[i - 1], actions[i - 1], id);
    }
  }

  /** Without a cancellation of everything, only kicks of its own user can have cancelled a connection. */
  lemma OnlyOwnKicksCancel(worlds: seq<World>, actions: seq<Action>, i: nat, id: Id) returns (m: nat)
    requires IsHistory(worlds, actions) && i < |worlds| && id in worlds[i].cancelled
    requires forall m :: 0 <= m < i ==> !actions[m].CancelOne?
    ensures m < i && actions[m].Visit? && actions[m].id == id
    ensures var k := actions[m].k;
            k in worlds[m].kicks && id in worlds[m].owner && worlds[m].owner[id] == worlds[m].kicks[k].user
  {
    CancelledIff(worlds, actions, i, id);
    m :| 0 <= m < i && Cancels(worlds[m], actions[m], id);
    AlwaysConsistent(worlds, actions, m);
    assert Enabled(worlds[m], actions[m]);
    KickSparesOthers(worlds[m], actions[m].k, id);
  }

  /** From i to j a kick with the handle k is under way. */
  ghost predicate Kicking(worlds: seq<World>, actions: seq<Action>, i: nat, j: nat, k: nat) {
    && IsHistory(worlds, actions) && i < j < |worlds|
    && actions[i].StartKick? && actions[i].k == k
    && forall m :: i < m < j ==> actions[m] != EndKick(k)
  }

  /** The kick looked at the id after i and before j, and at that moment it was in the primary map or not. */
  ghost predicate VisitedBetween(worlds: seq<World>, actions: seq<Action>, i: nat, j: nat, k: nat, id: Id, present: bool)
    requires |worlds| == |actions| + 1 && j <= |actions|
  {
    exists m :: i < m < j && actions[m] == Visit(k, id) && (id in worlds[m].conns <==> present)
  }

  /** How far a kick has come with one id: still to do, hit, or missed because it had left the primary map. */
  ghost predicate Progress(worlds: seq<World>, actions: seq<Action>, i: nat, j: nat, k: nat, id: Id)
    requires |worlds| == |actions| + 1 && j <= |actions|
  {
    && k in worlds[j].kicks
    && var kick := worlds[j].kicks[k];
       && (id in kick.hits <==> VisitedBetween(worlds, actions, i, j, k, id, true))
       && (id in kick.todo ==> id in kick.taken && id !in kick.hits)
       && (id in kick.taken && id !in kick.todo && id !in kick.hits <==> VisitedBetween(worlds, actions, i, j, k, id, false))
  }

  lemma ProgressStep(worlds: seq<World>, actions: seq<Action>, i: nat, j: nat, k: nat, id: Id)
    requires Kicking(worlds, actions, i, j + 1, k) && i < j && Progress(worlds, actions, i, j, k, id)
    ensures Progress(worlds, actions, i, j + 1, k, id)
  {
    assert Enabled(worlds[j], actions[j]) && worlds[j + 1] == Apply(worlds[j], actions[j]);
    assert actions[j] != EndKick(k);
    forall present: bool
      ensures VisitedBetween(worlds, actions, i, j + 1, k, id, present) <==>
                || VisitedBetween(worlds, actions, i, j, k, id, present)
                || (actions[j] == Visit(k, id) && (id in worlds[j].conns <==> present))
    {
    }
  }

  lemma {:induction false} KickProgress(worlds: seq<World>, actions: seq<Action>, i: nat, j: nat, k: nat, id: Id)
    requires Kicking(worlds, actions, i, j, k)
    ensures Progress(worlds, actions, i, j, k, id)
    decreases j
  {
    if i + 1 == j {
      assert Enabled(worlds[i], actions[i]) && worlds[i + 1] == Apply(worlds[i], actions[i]);
    } else {
      KickProgress(worlds, actions, i, j - 1, k, id);
      ProgressStep(worlds, actions, i, j - 1, k, id);
    }
  }

  /**
   A whole kick, from taking the entry at i to its end at j, whatever happens in between.
   Every connection of the user that was live or leaving at i is visited. It is cancelled,
   for good, and counted exactly if it was still in the primary map at that visit.
   */
  lemma KickHistory(worlds: seq<World>, actions: seq<Action>, i: nat, j: nat, k: nat, id: Id)
    requires Kicking(worlds, actions, i, j, k) && j < |actions| && actions[j] == EndKick(k)
    requires (At(worlds[i], id, Live) || At(worlds[i], id, Leaving)) && worlds[i].owner[id] == actions[i].u
    ensures VisitedBetween(worlds, actions, i, j, k, id, true) <==> !VisitedBetween(worlds, actions, i, j, k, id, false)
    ensures k in worlds[j].kicks
    ensures VisitedBetween(worlds, actions, i, j, k, id, true) <==> id in worlds[j].kicks[k].hits
    ensures VisitedBetween(worlds, actions, i, j, k, id, true) ==> id in worlds[j].cancelled
  {
    AlwaysConsistent(worlds, actions, i);
    assert Filed(worlds[i], actions[i].u, id);
    KickHoldsItsEntry(worlds, actions, i, j, k);
    KickProgress(worlds, actions, i, j, k, id);
    assert Enabled(worlds[j], actions[j]);
    if VisitedBetween(worlds, actions, i, j, k, id, true) {
      var m :| i < m < j && actions[m] == Visit(k, id) && id in worlds[m].conns;
      assert worlds[m + 1] == Apply(worlds[m], actions[m]);
      OwnersAreForever(worlds, actions, m + 1, j);
    }
  }

  /** The ids of the user in the primary map. */
  function Own(conns: map<Id, User>, u: User): set<Id> {
    set id | id in conns && conns[id] == u
  }

  class ConnectionManager {
    var nextConnId: Id
    var connections: map<Id, User>
    var userConnections: map<User, set<Id>>
    var cancelled: set<Id>
    ghost var stage: map<Id, Stage>
    ghost var owner: map<Id, User>

    ghost function View(): World
      reads this
    {
      World(nextConnId, connections, userConnections, cancelled, stage, owner, map[])
    }

    ghost predicate Valid()
      reads this
    {
      Inv(View()) && Settled(View())
    }

    constructor ()
      ensures Valid() && View() == Empty
    {
      nextConnId, connections, userConnections, cancelled := 1, map[], map[], {};
      stage, owner := map[], map[];
    }

    method Register(u: User) returns (id: Id)
      requires Valid()
      modifies this
      ensures Valid() && id == old(nextConnId)
      ensures View() == Registered(old(View()), u) && cancelled == old(cancelled)
    {
      RegisterKeepsInv(View(), u);
      id := nextConnId;
      nextConnId := nextConnId + 1;
      connections := connections[id := u];
      userConnections := userConnections[u := Entry(userConnections, u) + {id}];
      stage, owner := stage[id := Live], owner[id := u];
    }

    method Unregister(id: Id)
      requires Valid()
      modifies this
      ensures Valid()
      ensures cancelled == old(cancelled) && connections == old(connections) - {id}
      ensures id !in old(connections) ==> View() == old(View())
      ensures id in old(connections) ==>
                && Enabled(old(View()), Remove(id))
                && var w := Apply(old(View()), Remove(id));
                   Enabled(w, Leave(id)) && View() == Apply(w, Leave(id))
    {
      assert Staged(View(), id);
      if id in connections {
        UnregisterKeepsInv(View(), id);
        var u := connections[id];
        connections := connections - {id};
        stage := stage[id := Leaving];
        if u in userConnections {
          var ids := userConnections[u] - {id};
          userConnections := if ids == {} then userConnections - {u} else userConnections[u := ids];
        }
        stage := stage[id := Gone];
      }
    }

    /** Cancels the tokens of those ids that are in the primary map, and counts them. */
    method CancelPresent(ids: set<Id>) returns (count: nat)
      modifies this`cancelled
      ensures cancelled == old(cancelled) + ids * connections.Keys
      ensures count == |ids * connections.Keys|
    {
      count := 0;
      var todo := ids;
      ghost var hits := {};
      while todo != {}
        invariant forall id :: id in hits <==> id in ids && id !in todo && id in connections
        invariant cancelled == old(cancelled) + hits && count == |hits|
        decreases todo
      {
        var id :| id in todo;
        if id in connections {
          cancelled := cancelled + {id};
          count := count + 1;
          hits := hits + {id};
        }
        todo := todo - {id};
      }
      assert hits == ids * connections.Keys;
    }

    method KickUser(u: User) returns (kicked: nat)
      requires Valid()
      modifies this`cancelled
      ensures Valid()
      ensures cancelled == old(cancelled) + Own(connections, u)
      ensures kicked == |Own(connections, u)|
    {
      kicked := 0;
      SettledMeansInverse(View(), u);
      assert Own(connections, u) * connections.Keys == Own(connections, u);
      TokensDoNotMatter(View());
      if u in userConnections {
        kicked := CancelPresent(userConnections[u]);
      }
    }

    method CancelAll() returns (count: nat)
      requires Valid()
      modifies this`cancelled
      ensures Valid()
      ensures cancelled == old(cancelled) + connections.Keys
      ensures count == |connections|
    {
      TokensDoNotMatter(View());
      count := CancelPresent(connections.Keys);
      assert connections.Keys * connections.Keys == connections.Keys;
    }
  }

  /** The state after an undisturbed register. */
  function Registered(w: World, u: User): World {
    w.(next := w.next + 1, conns := w.conns[w.next := u], index := w.index[u := Entry(w.index, u) + {w.next}],
       stage := w.stage[w.next := Live], owner := w.owner[w.next := u])
  }

  /** An undisturbed register is the three steps of the protocol in a row. */
  lemma RegisterSteps(w: World, u: User)
    requires w.kicks == map[]
    ensures var w1 := Apply(w, Allocate(u));
            && Enabled(w1, Store(w.next))
            && var w2 := Apply(w1, Store(w.next));
               Enabled(w2, Enter(w.next)) && Apply(w2, Enter(w.next)) == Registered(w, u)
  {
    var id := w.next;
    assert w.stage[id := Allocated][id := Stored][id := Live] == w.stage[id := Live];
  }

  lemma RegisterKeepsInv(w: World, u: User)
    requires Inv(w) && Settled(w)
    ensures Inv(Registered(w, u)) && Settled(Registered(w, u))
  {
    RegisterSteps(w, u);
    var w1 := Apply(w, Allocate(u));
    StepKeepsInv(w, Allocate(u));
    var w2 := Apply(w1, Store(w.next));
    StepKeepsInv(w1, Store(w.next));
    StepKeepsInv(w2, Enter(w.next));
  }

  /** An undisturbed unregister passes through all its steps and comes to rest. */
  lemma UnregisterKeepsInv(w: World, id: Id)
    requires Inv(w) && Settled(w) && id in w.conns
    ensures Enabled(w, Remove(id))
    ensures var w1 := Apply(w, Remove(id));
            Enabled(w1, Leave(id)) && Inv(Apply(w1, Leave(id))) && Settled(Apply(w1, Leave(id)))
  {
    assert Staged(w, id);
    StepKeepsInv(w, Remove(id));
    StepKeepsInv(Apply(w, Remove(id)), Leave(id));
  }

  /** At rest, cancelling tokens disturbs nothing. */
  lemma TokensDoNotMatter(w: World)
    requires Inv(w) && Settled(w)
    ensures forall c: set<Id> {:trigger w.(cancelled := c)} :: Inv(w.(cancelled := c)) && Settled(w.(cancelled := c))
  {
    forall c: set<Id> ensures Inv(w.(cancelled := c)) && Settled(w.(cancelled := c)) {
      var w' := w.(cancelled := c);
      forall id ensures Staged(w', id) {
        assert Staged(w, id);
      }
      forall u, id ensures Filed(w', u, id) {
        assert Filed(w, u, id);
      }
    }
  }
}
