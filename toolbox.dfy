/**
 * The party overview window. The host's group actor (the party), its member
 * actors and the rendered accordions are objects the window updates in
 * place; the HP handlers only compute the value they ask the host to store.
 */
module Toolbox {
  import opened Wrappers
  import opened Seqs
  import opened HitPoints

  /** The `system.attributes.hp` data of an actor; a missing effectiveMax is None. */
  datatype Hp = Hp(value: int, effectiveMax: Option<int>)

  /** A member of the party, with the fields of the host actor the window touches. */
  class Actor {
    const id: string
    var hp: Hp
    /** The host's registry of windows that show this actor, keyed by window id. */
    var apps: map<string, object>
    /** The segment bar stored on the actor by the last render that drew one. */
    var barSegments: Option<seq<bool>>

    constructor (id: string, hp: Hp)
      ensures this.id == id && this.hp == hp && apps == map[] && barSegments == None
    {
      this.id := id;
      this.hp := hp;
      apps := map[];
      barSegments := None;
    }
  }

  /** The group actor: its own window registry and its members in order. */
  class Party {
    var apps: map<string, object>
    var creatures: seq<Actor>

    constructor (creatures: seq<Actor>)
      ensures this.creatures == creatures && apps == map[]
    {
      this.creatures := creatures;
      apps := map[];
    }
  }

  /** The ids of actors, in order. */
  function Ids(actors: seq<Actor>): (r: seq<string>)
    ensures |r| == |actors| && forall i :: 0 <= i < |actors| ==> r[i] == actors[i].id
  {
    seq(|actors|, i requires 0 <= i < |actors| => actors[i].id)
  }

  /** What `creatures.find(a => a.id === id)` returns: the first creature with that id. */
  function FindById(creatures: seq<Actor>, id: string): (r: Option<Actor>)
    ensures r.None? <==> forall a :: a in creatures ==> a.id != id
    ensures r.Some? ==> exists k :: (0 <= k < |creatures| && creatures[k] == r.value && r.value.id == id &&
      forall j :: 0 <= j < k ==> creatures[j].id != id)
  {
    match FirstIndex(Ids(creatures), id)
    case None =>
      assert forall a :: a in creatures ==> a.id in Ids(creatures);
      None
    case Some(k) => Some(creatures[k])
  }

  /** Why an HP handler cannot compute an update: `actor.system` of an undefined actor throws. */
  datatype HandlerError = ActorNotFound

  /** The write `actor.update({"system.attributes.hp.value": value})` a handler asks for. */
  datatype HpUpdate = HpUpdate(actor: Actor, value: int)

  /** The state of one accordion: the actor it belongs to and whether it is closed. */
  datatype AccordionState = AccordionState(actorId: string, closed: bool)

  /** The closed flag of the last accordion in `prior` that belongs to id, if any. */
  function LastState(prior: seq<AccordionState>, id: string): (r: Option<bool>)
    ensures r.None? <==> forall k :: 0 <= k < |prior| ==> prior[k].actorId != id
    ensures r.Some? ==> exists k :: (0 <= k < |prior| && prior[k] == AccordionState(id, r.value) &&
      forall j :: k < j < |prior| ==> prior[j].actorId != id)
  {
    if prior == [] then None
    else if prior[|prior| - 1].actorId == id then Some(prior[|prior| - 1].closed)
    else LastState(prior[..|prior| - 1], id)
  }

  /**
   * The closed flag of accordion j of a new render after the prior render's
   * state is carried over: the query for an actor id finds the first accordion
   * with that id, and a later prior accordion with the same id wins.
   */
  function CarriedState(ids: seq<string>, j: nat, prior: seq<AccordionState>, closed: bool): bool
    requires j < |ids|
  {
    if FirstIndex(ids, ids[j]) == Some(j) && LastState(prior, ids[j]).Some?
    then LastState(prior, ids[j]).value
    else closed
  }

  /** With one accordion per actor in each render, every actor in both renders keeps its prior state. */
  lemma CarriedStateDistinct(ids: seq<string>, j: nat, prior: seq<AccordionState>, k: nat, closed: bool)
    requires Distinct(ids) && j < |ids| && k < |prior|
    requires forall p, q :: 0 <= p < q < |prior| ==> prior[p].actorId != prior[q].actorId
    requires prior[k].actorId == ids[j]
    ensures CarriedState(ids, j, prior, closed) == prior[k].closed
  {
    FirstIndexOfDistinct(ids, j);
  }

  /** An accordion whose actor has no accordion in the prior render keeps its state. */
  lemma CarriedStateNew(ids: seq<string>, j: nat, prior: seq<AccordionState>, closed: bool)
    requires j < |ids|
    requires forall k :: 0 <= k < |prior| ==> prior[k].actorId != ids[j]
    ensures CarriedState(ids, j, prior, closed) == closed
  {
  }

  /** The root element of one rendered part: its accordions in document order. */
  class PartElement {
    const accordionIds: seq<string>
    var closed: seq<bool>

    ghost predicate Valid()
      reads this
    {
      |closed| == |accordionIds|
    }

    constructor (accordionIds: seq<string>, closed: seq<bool>)
      requires |closed| == |accordionIds|
      ensures Valid() && this.accordionIds == accordionIds && this.closed == closed
    {
      this.accordionIds := accordionIds;
      this.closed := closed;
    }

    /** What `querySelectorAll(".accordion[data-actor-id]")` reads off this element. */
    function Accordions(): seq<AccordionState>
      requires Valid()
      reads this
    {
      var ids, flags := accordionIds, closed;
      seq(|ids|, i requires 0 <= i < |ids| && i < |flags| => AccordionState(ids[i], flags[i]))
    }
  }

  /** The id of the part whose context holds the party members. */
  const PartyPart := "party"

  /** The window id, from the window's default options. */
  const DefaultId := "minaxams-toolbox"

  class MinaxamsToolbox {
    const id: string
    const party: Party

    constructor (party: Party)
      ensures this.party == party && id == DefaultId
    {
      this.party := party;
      id := DefaultId;
    }

    /** The window is registered with the party and with every member. */
    ghost predicate Registered()
      reads party, party.creatures
    {
      id in party.apps && party.apps[id] == this &&
      forall a :: a in party.creatures ==> id in a.apps && a.apps[id] == this
    }

    /** On first render the window enters the registry of the party and of every member. */
    method OnFirstRender()
      modifies party`apps, party.creatures
      ensures Registered()
      ensures party.apps == old(party.apps)[id := this]
      ensures forall a :: a in party.creatures ==> a.apps == old(a.apps)[id := this]
      ensures forall a :: a in party.creatures ==> a.hp == old(a.hp) && a.barSegments == old(a.barSegments)
    {
      party.apps := party.apps[id := this];
      var creatures := party.creatures;
      for i := 0 to |creatures|
        invariant party.apps == old(party.apps)[id := this]
        invariant forall a :: a in creatures[..i] ==> a.apps == old(a.apps)[id := this]
        invariant forall a :: a in creatures && a !in creatures[..i] ==> a.apps == old(a.apps)
        invariant forall a :: a in creatures ==> a.hp == old(a.hp) && a.barSegments == old(a.barSegments)
      {
        var actor := creatures[i];
        actor.apps := actor.apps[id := this];
        assert creatures[..i + 1] == creatures[..i] + [actor];
      }
    }

    /** On close the window leaves the registry of the party and of every member. */
    method OnClose()
      modifies party`apps, party.creatures
      ensures id !in party.apps && forall a :: a in party.creatures ==> id !in a.apps
      ensures party.apps == old(party.apps) - {id}
      ensures forall a :: a in party.creatures ==> a.apps == old(a.apps) - {id}
      ensures forall a :: a in party.creatures ==> a.hp == old(a.hp) && a.barSegments == old(a.barSegments)
    {
      party.apps := party.apps - {id};
      var creatures := party.creatures;
      for i := 0 to |creatures|
        invariant party.apps == old(party.apps) - {id}
        invariant forall a :: a in creatures[..i] ==> a.apps == old(a.apps) - {id}
        invariant forall a :: a in creatures && a !in creatures[..i] ==> a.apps == old(a.apps)
        invariant forall a :: a in creatures ==> a.hp == old(a.hp) && a.barSegments == old(a.barSegments)
      {
        var actor := creatures[i];
        actor.apps := actor.apps - {id};
        assert creatures[..i + 1] == creatures[..i] + [actor];
      }
    }

    /**
     * For each member with a truthy maximum, store its segment bar; a member
     * without one keeps whatever bar an earlier render stored.
     */
    method PreparePartyPartContext(members: seq<Actor>)
      modifies members
      ensures forall a :: a in members ==>
        a.barSegments == if HasBar(a.hp.effectiveMax)
                         then Some(BarSegments(a.hp.effectiveMax.value, a.hp.value))
                         else old(a.barSegments)
      ensures forall a :: a in members ==> a.hp == old(a.hp) && a.apps == old(a.apps)
    {
      for i := 0 to |members|
        invariant forall a :: a in members[..i] ==>
          a.barSegments == if HasBar(a.hp.effectiveMax)
                           then Some(BarSegments(a.hp.effectiveMax.value, a.hp.value))
                           else old(a.barSegments)
        invariant forall a :: a in members && a !in members[..i] ==> a.barSegments == old(a.barSegments)
        invariant forall a :: a in members ==> a.hp == old(a.hp) && a.apps == old(a.apps)
      {
        var a := members[i];
        assert members[..i + 1] == members[..i] + [a];
        if !HasBar(a.hp.effectiveMax) {
          continue;
        }
        a.barSegments := Some(BarSegments(a.hp.effectiveMax.value, a.hp.value));
      }
    }

    /** Prepare the context of one part: only the "party" part draws the members' bars. */
    method PreparePartContext(partId: string)
      modifies party.creatures
      ensures forall a :: a in party.creatures ==>
        a.barSegments == if partId == PartyPart && HasBar(a.hp.effectiveMax)
                         then Some(BarSegments(a.hp.effectiveMax.value, a.hp.value))
                         else old(a.barSegments)
      ensures forall a :: a in party.creatures ==> a.hp == old(a.hp) && a.apps == old(a.apps)
    {
      if partId == PartyPart {
        PreparePartyPartContext(party.creatures);
      }
    }

    /** A click inside accordion j of a rendered part flips its closed flag. */
    method OnToggleAccordion(element: PartElement, j: nat)
      requires element.Valid() && j < |element.closed|
      modifies element
      ensures element.Valid()
      ensures element.closed == old(element.closed)[j := !old(element.closed)[j]]
    {
      element.closed := element.closed[j := !element.closed[j]];
    }

    /** Carry each prior accordion's closed flag over to the first new accordion of the same actor. */
    method PreSyncPartState(partId: string, newElement: PartElement, priorElement: PartElement)
      requires newElement.Valid() && priorElement.Valid() && newElement != priorElement
      modifies newElement
      ensures newElement.Valid()
      ensures forall j :: 0 <= j < |newElement.accordionIds| ==>
        newElement.closed[j] == CarriedState(newElement.accordionIds, j, priorElement.Accordions(), old(newElement.closed[j]))
    {
      var prior := priorElement.Accordions();
      var ids := newElement.accordionIds;
      for i := 0 to |prior|
        invariant newElement.Valid()
        invariant forall j :: 0 <= j < |ids| ==>
          newElement.closed[j] == CarriedState(ids, j, prior[..i], old(newElement.closed[j]))
      {
        var oldAcc := prior[i];
        assert prior[..i + 1][..i] == prior[..i];
        match FirstIndex(ids, oldAcc.actorId)
        case None =>
        case Some(k) =>
          newElement.closed := newElement.closed[k := oldAcc.closed];
      }
      assert prior[..|prior|] == prior;
    }

    /** The first member with the given id, as `getActorById` finds it. */
    function GetActorById(id: string): (r: Option<Actor>)
      reads party
      ensures r.None? <==> forall a :: a in party.creatures ==> a.id != id
      ensures r.Some? ==> exists k :: (0 <= k < |party.creatures| && party.creatures[k] == r.value &&
        r.value.id == id && forall j :: 0 <= j < k ==> party.creatures[j].id != id)
    {
      FindById(party.creatures, id)
    }

    /** The update a click on segment `index` of the bar of actor `actorId` asks for. */
    function OnToggleSegment(actorId: string, index: int): (r: Result<HpUpdate, HandlerError>)
      reads party, party.creatures
      ensures r.Failure? <==> forall a :: a in party.creatures ==> a.id != actorId
      ensures r.Success? ==> (r.value.actor in party.creatures && r.value.actor.id == actorId &&
        r.value.value == ToggledHp(index, r.value.actor.hp.value))
      ensures r.Success? ==> GetActorById(actorId) == Some(r.value.actor)
    {
      match GetActorById(actorId)
      case None => Failure(ActorNotFound)
      case Some(actor) => Success(HpUpdate(actor, ToggledHp(index, actor.hp.value)))
    }

    /** The update an HP button with the given mode and value asks for on actor `actorId`. */
    function OnSetHp(actorId: string, mode: Option<string>, value: int): (r: Result<HpUpdate, HandlerError>)
      reads party, party.creatures
      ensures r.Failure? <==> forall a :: a in party.creatures ==> a.id != actorId
      ensures r.Success? ==> (r.value.actor in party.creatures && r.value.actor.id == actorId &&
        r.value.value == SetHp(mode, value, r.value.actor.hp.value))
      ensures r.Success? ==> GetActorById(actorId) == Some(r.value.actor)
    {
      match GetActorById(actorId)
      case None => Failure(ActorNotFound)
      case Some(actor) => Success(HpUpdate(actor, SetHp(mode, value, actor.hp.value)))
    }
  }

  /**
   * Opening the window and closing it again leaves every registry as it was,
   * provided none held the window's id before.
   */
  method RenderThenClose(party: Party)
    requires DefaultId !in party.apps && forall a :: a in party.creatures ==> DefaultId !in a.apps
    modifies party`apps, party.creatures
    ensures party.apps == old(party.apps)
    ensures forall a :: a in party.creatures ==> a.apps == old(a.apps)
  {
    var toolbox := new MinaxamsToolbox(party);
    toolbox.OnFirstRender();
    toolbox.OnClose();
  }
}
