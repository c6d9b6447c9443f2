/**
 * The controller of the cyber range: active scenarios and campaign progress in two stores, reset,
 * and snapshots of both. The catalog is fixed; files are entries of maps.
 */
module RangeController {
  import opened Options
  import opened RangeCatalog

  datatype Variant = Variant(id: string, nonce: string)

  datatype ScenarioRecord = ScenarioRecord(
    scenarioId: string, version: nat, target: string, blind: bool, variant: Option<Variant>, startedAt: int)

  datatype Status = Active | Completed | OtherStatus

  datatype CampaignRecord = CampaignRecord(
    campaignId: string, version: nat, status: Status, index: nat, current: Option<string>,
    completed: seq<string>, scenarioIds: seq<string>, resetBetween: bool, blind: bool, startedAt: int, updatedAt: int)

  /** An item of a snapshot as it is read back: a record, or something else. */
  datatype Item<T> = Record(record: T) | Garbage

  datatype Snapshot =
    | Unreadable
    | Snapshot(schema: int, id: string, cyberRange: bool, state: Option<seq<Item<ScenarioRecord>>>,
        campaigns: Option<seq<Item<CampaignRecord>>>)

  type Scenarios = map<string, ScenarioRecord>
  type Campaigns = map<string, CampaignRecord>

  datatype Catalog = Catalog(scenarios: map<string, Scenario>, campaigns: map<string, Campaign>)

  datatype State = State(scenarios: Scenarios, campaigns: Campaigns, snapshots: map<string, Snapshot>)

  datatype Reply =
    | NotFound
    | Conflict
    | InvalidSnapshot
    | ScenarioReply(scenario: ScenarioRecord)
    | CampaignReply(campaign: CampaignRecord)
    | Done

  /** Both catalog checks have passed, and entries stand under their own ids. */
  ghost predicate Loaded(catalog: Catalog) {
    && (forall id :: id in catalog.scenarios ==> catalog.scenarios[id].id == id && IsId(id))
    && (forall id :: id in catalog.campaigns ==>
        catalog.campaigns[id].id == id && CampaignAccepted(RequirementsOf(catalog.scenarios), catalog.campaigns[id]))
  }

  function CampaignsById(campaigns: seq<Campaign>): map<string, Campaign> {
    if campaigns == [] then map[]
    else CampaignsById(campaigns[..|campaigns| - 1])[campaigns[|campaigns| - 1].id := campaigns[|campaigns| - 1]]
  }

  function CatalogOf(scenarios: seq<Scenario>, campaigns: seq<Campaign>): Catalog {
    Catalog(ById(scenarios), CampaignsById(campaigns))
  }

  lemma {:induction false} CampaignsStandById(required: Requirements, campaigns: seq<Campaign>)
    requires forall i :: 0 <= i < |campaigns| ==> CampaignAccepted(required, campaigns[i])
    ensures forall id :: id in CampaignsById(campaigns) ==>
      CampaignsById(campaigns)[id].id == id && CampaignAccepted(required, CampaignsById(campaigns)[id])
  {
    if campaigns != [] {
      CampaignsStandById(required, campaigns[..|campaigns| - 1]);
    }
  }

  lemma {:induction false} CampaignsStand(campaigns: seq<Campaign>)
    requires forall i, j :: 0 <= i < j < |campaigns| ==> campaigns[i].id != campaigns[j].id
    ensures forall i :: 0 <= i < |campaigns| ==>
      campaigns[i].id in CampaignsById(campaigns) && CampaignsById(campaigns)[campaigns[i].id] == campaigns[i]
  {
    if campaigns != [] {
      var n := |campaigns| - 1;
      CampaignsStand(campaigns[..n]);
      assert forall i :: 0 <= i < n ==> campaigns[..n][i] == campaigns[i];
    }
  }

  /** Every accepted scenario and campaign can be played: it stands under its identifier. */
  lemma AcceptedCatalogsAreComplete(scenarios: seq<Scenario>, campaigns: seq<Campaign>)
    requires CatalogAccepted(scenarios) && CampaignsAccepted(RequirementsOf(ById(scenarios)), campaigns)
    ensures var catalog := CatalogOf(scenarios, campaigns);
      && (forall i :: 0 <= i < |scenarios| ==> scenarios[i].id in catalog.scenarios && catalog.scenarios[scenarios[i].id] == scenarios[i])
      && (forall i :: 0 <= i < |campaigns| ==> campaigns[i].id in catalog.campaigns && catalog.campaigns[campaigns[i].id] == campaigns[i])
  {
    ByIdOfDistinct(scenarios);
    CampaignsStand(campaigns);
  }

  /** What both catalog checks accept is a loaded catalog. */
  lemma AcceptedCatalogsLoad(scenarios: seq<Scenario>, campaigns: seq<Campaign>)
    requires CatalogAccepted(scenarios) && CampaignsAccepted(RequirementsOf(ById(scenarios)), campaigns)
    ensures Loaded(CatalogOf(scenarios, campaigns))
  {
    AcceptedCatalogIsClosed(scenarios);
    CampaignsStandById(RequirementsOf(ById(scenarios)), campaigns);
  }

  // ---------------------------------------------------------------- starting and advancing

  /** What a request brings from outside: the clock and the random choices for a blind scenario. */
  datatype Moment = Moment(now: int, pick: nat, nonce: string)

  function Activated(s: Scenario, t: Moment): ScenarioRecord {
    ScenarioRecord(s.id, s.version, s.target, s.blind,
      if s.blind && s.variants != [] then Some(Variant(s.variants[t.pick % |s.variants|], t.nonce)) else None, t.now)
  }

  /** What a reply shows of a record: of a blind scenario not which variant was chosen, nor its nonce. */
  function Public(r: ScenarioRecord): ScenarioRecord {
    if r.blind then r.(variant := None) else r
  }

  function StartedRecord(c: Campaign, t: Moment): CampaignRecord
    requires c.scenarioIds != []
  {
    CampaignRecord(c.id, c.version, Active, 0, Some(c.scenarioIds[0]), [], c.scenarioIds, c.resetBetween, c.blind, t.now, t.now)
  }

  /** The current scenario as text; a null, which only a snapshot from elsewhere can hold in an active campaign, reads as a name. */
  function CurrentText(r: CampaignRecord): string {
    if r.current == None then "None" else r.current.value
  }

  function AdvancedRecord(c: Campaign, r: CampaignRecord, t: Moment): CampaignRecord {
    var current := CurrentText(r);
    var completed := if current != "" && current !in r.completed then r.completed + [current] else r.completed;
    var next := r.index + 1;
    if next >= |c.scenarioIds| then
      r.(status := Completed, index := |c.scenarioIds|, current := None, completed := completed, updatedAt := t.now)
    else
      r.(index := next, current := Some(c.scenarioIds[next]), completed := completed, updatedAt := t.now)
  }

  function StartScenario(catalog: Catalog, s: State, id: string, t: Moment): (State, Reply) {
    if id !in catalog.scenarios then (s, NotFound)
    else
      var record := Activated(catalog.scenarios[id], t);
      (s.(scenarios := s.scenarios[id := record]), ScenarioReply(Public(record)))
  }

  function StartCampaign(catalog: Catalog, s: State, id: string, t: Moment): (State, Reply)
    requires Loaded(catalog)
  {
    if id !in catalog.campaigns then (s, NotFound)
    else if id in s.campaigns && s.campaigns[id].status == Active then (s, CampaignReply(s.campaigns[id]))
    else
      var c := catalog.campaigns[id];
      var first := c.scenarioIds[0];
      var record := StartedRecord(c, t);
      (s.(scenarios := map[first := Activated(catalog.scenarios[first], t)], campaigns := s.campaigns[id := record]),
       CampaignReply(record))
  }

  function Advance(catalog: Catalog, s: State, id: string, t: Moment): (State, Reply)
    requires Loaded(catalog)
  {
    if id !in catalog.campaigns then (s, NotFound)
    else if id !in s.campaigns then (s, Conflict)
    else if s.campaigns[id].status != Active then (s, CampaignReply(s.campaigns[id]))
    else
      var c := catalog.campaigns[id];
      var record := AdvancedRecord(c, s.campaigns[id], t);
      var kept := if c.resetBetween then map[] else s.scenarios;
      var next := s.campaigns[id].index + 1;
      var scenarios :=
        if next < |c.scenarioIds| then kept[c.scenarioIds[next] := Activated(catalog.scenarios[c.scenarioIds[next]], t)]
        else kept;
      (s.(scenarios := scenarios, campaigns := s.campaigns[id := record]), CampaignReply(record))
  }

  // ---------------------------------------------------------------- snapshots

  /** The keys of a store in the order in which its files are listed. */
  ghost predicate Lists(order: seq<string>, keys: set<string>) {
    Distinct(order) && Elements(order) == keys
  }

  /** The records of the listed files. */
  function RecordsOf<T>(store: map<string, T>, order: seq<string>): (items: seq<Item<T>>)
    ensures |items| == |order|
  {
    seq(|order|, i requires 0 <= i < |order| => if order[i] in store then Record(store[order[i]]) else Garbage)
  }

  function SnapshotOf(id: string, scenarios: Scenarios, order: seq<string>, campaigns: Campaigns, campaignOrder: seq<string>): Snapshot {
    Snapshot(2, id, true, Some(RecordsOf(scenarios, order)), Some(RecordsOf(campaigns, campaignOrder)))
  }

  /** Scenario records by id, or nothing if an item is garbage, undeclared or repeated. */
  function ReadScenarios(catalog: Catalog, items: seq<Item<ScenarioRecord>>): Option<Scenarios> {
    if items == [] then Some(map[])
    else
      var item := items[|items| - 1];
      match ReadScenarios(catalog, items[..|items| - 1])
      case None => None
      case Some(read) =>
        if item.Garbage? || item.record.scenarioId !in catalog.scenarios || item.record.scenarioId in read then None
        else Some(read[item.record.scenarioId := item.record])
  }

  function ReadCampaigns(catalog: Catalog, items: seq<Item<CampaignRecord>>): Option<Campaigns> {
    if items == [] then Some(map[])
    else
      var item := items[|items| - 1];
      match ReadCampaigns(catalog, items[..|items| - 1])
      case None => None
      case Some(read) =>
        if || item.Garbage? || item.record.campaignId !in catalog.campaigns || item.record.campaignId in read
           || item.record.scenarioIds != catalog.campaigns[item.record.campaignId].scenarioIds
           || item.record.status == OtherStatus
        then None
        else Some(read[item.record.campaignId := item.record])
  }

  /** Both stores a snapshot describes, or nothing when any check refuses it. */
  function Decoded(catalog: Catalog, snapshot: Snapshot, id: string): Option<(Scenarios, Campaigns)> {
    if || snapshot.Unreadable? || snapshot.schema !in {1, 2} || !snapshot.cyberRange || snapshot.id != id
       || snapshot.state == None || (snapshot.schema == 2 && snapshot.campaigns == None)
    then None
    else match ReadScenarios(catalog, snapshot.state.value)
      case None => None
      case Some(scenarios) =>
        match ReadCampaigns(catalog, if snapshot.campaigns.Some? then snapshot.campaigns.value else [])
        case None => None
        case Some(campaigns) => Some((scenarios, campaigns))
  }

  function Restore(catalog: Catalog, s: State, id: string): (State, Reply) {
    if id !in s.snapshots then (s, NotFound)
    else match Decoded(catalog, s.snapshots[id], id)
      case None => (s, InvalidSnapshot)
      case Some((scenarios, campaigns)) => (s.(scenarios := scenarios, campaigns := campaigns), Done)
  }

  // ---------------------------------------------------------------- the controller

  class Controller {
    const catalog: Catalog
    var scenarios: Scenarios
    var campaigns: Campaigns
    var snapshots: map<string, Snapshot>

    ghost function View(): State
      reads this
    {
      State(scenarios, campaigns, snapshots)
    }

    constructor (catalog: Catalog)
      requires Loaded(catalog)
      ensures this.catalog == catalog && View() == State(map[], map[], map[])
    {
      this.catalog, scenarios, campaigns, snapshots := catalog, map[], map[], map[];
    }

    method Activate(s: Scenario, t: Moment) returns (record: ScenarioRecord)
      modifies this`scenarios
      ensures record == Activated(s, t) && scenarios == old(scenarios)[s.id := record]
    {
      var variant := None;
      if s.blind && s.variants != [] {
        variant := Some(Variant(s.variants[t.pick % |s.variants|], t.nonce));
      }
      record := ScenarioRecord(s.id, s.version, s.target, s.blind, variant, t.now);
      scenarios := scenarios[s.id := record];
    }

    method ClearScenarios() returns (removed: nat)
      modifies this`scenarios
      ensures scenarios == map[] && removed == |old(scenarios)|
    {
      removed := 0;
      while scenarios != map[]
        invariant removed + |scenarios| == |old(scenarios)|
        decreases |scenarios|
      {
        var id :| id in scenarios;
        assert |scenarios - {id}| == |scenarios| - 1 by {
          assert (scenarios - {id}).Keys == scenarios.Keys - {id};
          assert |scenarios.Keys - {id}| == |scenarios.Keys| - 1;
        }
        scenarios := scenarios - {id};
        removed := removed + 1;
      }
    }

    method StartOne(id: string, t: Moment) returns (reply: Reply)
      requires Loaded(catalog)
      modifies this
      ensures (View(), reply) == StartScenario(catalog, old(View()), id, t)
    {
      if id !in catalog.scenarios {
        return NotFound;
      }
      var record := Activate(catalog.scenarios[id], t);
      reply := ScenarioReply(Public(record));
    }

    /** The state as it is shown: each record of both stores, scenarios without their secrets. */
    method Show() returns (shown: Scenarios, played: Campaigns)
      ensures shown.Keys == scenarios.Keys && forall id :: id in scenarios ==> shown[id] == Public(scenarios[id])
      ensures played == campaigns
    {
      shown := map id | id in scenarios :: Public(scenarios[id]);
      played := campaigns;
    }

    method Start(id: string, t: Moment) returns (reply: Reply)
      requires Loaded(catalog)
      modifies this
      ensures (View(), reply) == StartCampaign(catalog, old(View()), id, t)
    {
      if id !in catalog.campaigns {
        return NotFound;
      }
      if id in campaigns && campaigns[id].status == Active {
        return CampaignReply(campaigns[id]);
      }
      var c := catalog.campaigns[id];
      assert c.scenarioIds[0] in RequirementsOf(catalog.scenarios);
      var removed := ClearScenarios();
      var first := Activate(catalog.scenarios[c.scenarioIds[0]], t);
      var record := CampaignRecord(
        id, c.version, Active, 0, Some(first.scenarioId), [], c.scenarioIds, c.resetBetween, c.blind, t.now, t.now);
      campaigns := campaigns[id := record];
      reply := CampaignReply(record);
    }

    method AdvanceOne(id: string, t: Moment) returns (reply: Reply)
      requires Loaded(catalog)
      modifies this
      ensures (View(), reply) == Advance(catalog, old(View()), id, t)
    {
      if id !in catalog.campaigns {
        return NotFound;
      }
      if id !in campaigns {
        return Conflict;
      }
      var record := campaigns[id];
      if record.status != Active {
        return CampaignReply(record);
      }
      var c := catalog.campaigns[id];
      var completed := record.completed;
      var current := CurrentText(record);
      if current != "" && current !in completed {
        completed := completed + [current];
      }
      var next := record.index + 1;
      if c.resetBetween {
        var removed := ClearScenarios();
      }
      if next >= |c.scenarioIds| {
        record := record.(
          status := Completed, index := |c.scenarioIds|, current := None, completed := completed, updatedAt := t.now);
      } else {
        assert c.scenarioIds[next] in RequirementsOf(catalog.scenarios);
        var activated := Activate(catalog.scenarios[c.scenarioIds[next]], t);
        record := record.(
          index := next, current := Some(activated.scenarioId), completed := completed, updatedAt := t.now);
      }
      campaigns := campaigns[id := record];
      reply := CampaignReply(record);
    }

    method Reset() returns (removedScenarios: nat, removedCampaigns: nat)
      modifies this
      ensures View() == old(View()).(scenarios := map[], campaigns := map[])
      ensures removedScenarios == |old(scenarios)| && removedCampaigns == |old(campaigns)|
    {
      removedCampaigns := |campaigns|;
      removedScenarios := ClearScenarios();
      campaigns := map[];
    }

    method Save(id: string)
      returns (stateRecords: nat, campaignRecords: nat, ghost order: seq<string>, ghost campaignOrder: seq<string>)
      modifies this`snapshots
      ensures Lists(order, scenarios.Keys) && Lists(campaignOrder, campaigns.Keys)
      ensures snapshots == old(snapshots)[id := SnapshotOf(id, scenarios, order, campaigns, campaignOrder)]
      ensures stateRecords == |scenarios| && campaignRecords == |campaigns|
    {
      var files := ListKeys(scenarios.Keys);
      var campaignFiles := ListKeys(campaigns.Keys);
      order, campaignOrder := files, campaignFiles;
      snapshots := snapshots[id := SnapshotOf(id, scenarios, files, campaigns, campaignFiles)];
      stateRecords, campaignRecords := |files|, |campaignFiles|;
    }

    method RestoreOne(id: string) returns (reply: Reply)
      modifies this
      ensures (View(), reply) == Restore(catalog, old(View()), id)
    {
      if id !in snapshots {
        return NotFound;
      }
      var record := snapshots[id];
      if || record.Unreadable? || record.schema !in {1, 2} || !record.cyberRange || record.id != id
         || record.state == None || (record.schema == 2 && record.campaigns == None)
      {
        return InvalidSnapshot;
      }
      var items := record.state.value;
      var prepared: Scenarios := map[];
      for i := 0 to |items|
        invariant ReadScenarios(catalog, items[..i]) == Some(prepared)
        invariant View() == old(View())
      {
        assert items[..i + 1][..i] == items[..i];
        if items[i].Garbage? || items[i].record.scenarioId !in catalog.scenarios || items[i].record.scenarioId in prepared {
          NoneStaysNone(catalog, items, i + 1);
          return InvalidSnapshot;
        }
        prepared := prepared[items[i].record.scenarioId := items[i].record];
      }
      assert items[..|items|] == items;
      var more := if record.campaigns.Some? then record.campaigns.value else [];
      var campaignsPrepared: Campaigns := map[];
      for i := 0 to |more|
        invariant ReadCampaigns(catalog, more[..i]) == Some(campaignsPrepared)
        invariant View() == old(View())
      {
        assert more[..i + 1][..i] == more[..i];
        if || more[i].Garbage? || more[i].record.campaignId !in catalog.campaigns
           || more[i].record.campaignId in campaignsPrepared
           || more[i].record.scenarioIds != catalog.campaigns[more[i].record.campaignId].scenarioIds
           || more[i].record.status == OtherStatus
        {
          NoCampaignsStayNone(catalog, more, i + 1);
          return InvalidSnapshot;
        }
        campaignsPrepared := campaignsPrepared[more[i].record.campaignId := more[i].record];
      }
      assert more[..|more|] == more;
      // Everything has been checked before the first file is touched.
      scenarios, campaigns := prepared, campaignsPrepared;
      reply := Done;
    }
  }

  /** Lists a store's files in some order. */
  method ListKeys(keys: set<string>) returns (order: seq<string>)
    ensures Lists(order, keys) && |order| == |keys|
  {
    order := [];
    var remaining := keys;
    while remaining != {}
      invariant remaining <= keys && Distinct(order) && Elements(order) == keys - remaining
      invariant |order| + |remaining| == |keys|
      decreases remaining
    {
      var key :| key in remaining;
      assert Elements(order + [key]) == Elements(order) + {key};
      order := order + [key];
      remaining := remaining - {key};
    }
  }

  lemma {:induction false} NoneStaysNone(catalog: Catalog, items: seq<Item<ScenarioRecord>>, i: nat)
    requires i <= |items| && ReadScenarios(catalog, items[..i]) == None
    ensures ReadScenarios(catalog, items) == None
    decreases |items|
  {
    if i == |items| {
      assert items[..i] == items;
    } else {
      assert items[..|items| - 1][..i] == items[..i];
      NoneStaysNone(catalog, items[..|items| - 1], i);
    }
  }

  lemma {:induction false} NoCampaignsStayNone(catalog: Catalog, items: seq<Item<CampaignRecord>>, i: nat)
    requires i <= |items| && ReadCampaigns(catalog, items[..i]) == None
    ensures ReadCampaigns(catalog, items) == None
    decreases |items|
  {
    if i == |items| {
      assert items[..i] == items;
    } else {
      assert items[..|items| - 1][..i] == items[..i];
      NoCampaignsStayNone(catalog, items[..|items| - 1], i);
    }
  }

  // ---------------------------------------------------------------- runs

  datatype Op =
    | StartScenarioOp(id: string, t: Moment)
    | StartCampaignOp(id: string, t: Moment)
    | AdvanceOp(id: string, t: Moment)
    | ResetOp
    | SaveOp(id: string, order: seq<string>, campaignOrder: seq<string>)
    | RestoreOp(id: string)

  /** A save under a listing of both stores; snapshot ids are drawn at random, so a used id does not recur. */
  ghost predicate Proper(s: State, op: Op) {
    op.SaveOp? ==> Lists(op.order, s.scenarios.Keys) && Lists(op.campaignOrder, s.campaigns.Keys) && op.id !in s.snapshots
  }

  ghost function Apply(catalog: Catalog, s: State, op: Op): State
    requires Loaded(catalog)
  {
    match op
    case StartScenarioOp(id, t) => StartScenario(catalog, s, id, t).0
    case StartCampaignOp(id, t) => StartCampaign(catalog, s, id, t).0
    case AdvanceOp(id, t) => Advance(catalog, s, id, t).0
    case ResetOp => s.(scenarios := map[], campaigns := map[])
    case SaveOp(id, order, campaignOrder) =>
      if !Proper(s, op) then s
      else s.(snapshots := s.snapshots[id := SnapshotOf(id, s.scenarios, order, s.campaigns, campaignOrder)])
    case RestoreOp(id) => Restore(catalog, s, id).0
  }

  ghost function Run(catalog: Catalog, s: State, ops: seq<Op>): State
    requires Loaded(catalog)
    decreases |ops|
  {
    if ops == [] then s else Run(catalog, Apply(catalog, s, ops[0]), ops[1..])
  }

  /** Nothing is active, and the snapshots may come from anywhere. */
  function Begun(snapshots: map<string, Snapshot>): State {
    State(map[], map[], snapshots)
  }

  // ---------------------------------------------------------------- what every operation keeps

  /** A campaign has completed exactly the scenarios before its index and is playing the one at it. */
  ghost predicate InProgress(c: Campaign, r: CampaignRecord) {
    && r.campaignId == c.id && r.scenarioIds == c.scenarioIds
    && r.index <= |c.scenarioIds| && r.completed == c.scenarioIds[..r.index]
    && match r.status
       case Active => r.index < |c.scenarioIds| && r.current == Some(c.scenarioIds[r.index])
       case Completed => r.index == |c.scenarioIds| && r.current == None
       case OtherStatus => false
  }

  ghost predicate StoresSound(catalog: Catalog, scenarios: Scenarios, campaigns: Campaigns) {
    ScenariosSound(catalog, scenarios) && CampaignsSound(catalog, campaigns)
  }

  ghost predicate ScenariosSound(catalog: Catalog, scenarios: Scenarios) {
    forall id :: id in scenarios ==> id in catalog.scenarios && scenarios[id].scenarioId == id
  }

  ghost predicate CampaignsSound(catalog: Catalog, campaigns: Campaigns) {
    forall id :: id in campaigns ==> id in catalog.campaigns && InProgress(catalog.campaigns[id], campaigns[id])
  }

  /** What the check of a snapshot asks of its campaigns: declared, under their own names, with the catalog's scenarios and a known status. */
  ghost predicate Restorable(catalog: Catalog, campaigns: Campaigns) {
    forall id :: id in campaigns ==>
      && id in catalog.campaigns && campaigns[id].campaignId == id
      && campaigns[id].scenarioIds == catalog.campaigns[id].scenarioIds && campaigns[id].status != OtherStatus
  }

  /** Both stores could be saved and restored, whether or not campaigns stand at their index. */
  ghost predicate StoresReadable(catalog: Catalog, s: State) {
    ScenariosSound(catalog, s.scenarios) && Restorable(catalog, s.campaigns)
  }

  lemma SoundIsReadable(catalog: Catalog, s: State)
    requires Loaded(catalog) && StoresSound(catalog, s.scenarios, s.campaigns)
    ensures StoresReadable(catalog, s)
  {
  }

  /** Every snapshot that can be restored leads to sound stores. */
  ghost predicate SnapshotsSound(catalog: Catalog, snapshots: map<string, Snapshot>) {
    forall id :: id in snapshots ==> ReadsSound(catalog, snapshots[id], id)
  }

  ghost predicate ReadsSound(catalog: Catalog, snapshot: Snapshot, id: string) {
    match Decoded(catalog, snapshot, id)
    case None => true
    case Some((scenarios, campaigns)) => StoresSound(catalog, scenarios, campaigns)
  }

  ghost predicate Inv(catalog: Catalog, s: State) {
    StoresSound(catalog, s.scenarios, s.campaigns) && SnapshotsSound(catalog, s.snapshots)
  }

  lemma CampaignFacts(catalog: Catalog, id: string)
    requires Loaded(catalog) && id in catalog.campaigns
    ensures var c := catalog.campaigns[id];
      && c.id == id && c.scenarioIds != [] && Distinct(c.scenarioIds)
      && forall i :: 0 <= i < |c.scenarioIds| ==> c.scenarioIds[i] in catalog.scenarios && c.scenarioIds[i] != ""
  {
    var c := catalog.campaigns[id];
    forall i | 0 <= i < |c.scenarioIds| ensures c.scenarioIds[i] in catalog.scenarios {
      assert c.scenarioIds[i] in RequirementsOf(catalog.scenarios);
    }
  }

  lemma StartedInProgress(catalog: Catalog, id: string, t: Moment)
    requires Loaded(catalog) && id in catalog.campaigns
    ensures InProgress(catalog.campaigns[id], StartedRecord(catalog.campaigns[id], t))
  {
    CampaignFacts(catalog, id);
  }

  lemma ActivationKeeps(catalog: Catalog, scenarios: Scenarios, id: string, t: Moment)
    requires Loaded(catalog) && ScenariosSound(catalog, scenarios) && id in catalog.scenarios
    ensures ScenariosSound(catalog, scenarios[id := Activated(catalog.scenarios[id], t)])
  {
  }

  lemma RecordKeeps(catalog: Catalog, campaigns: Campaigns, id: string, r: CampaignRecord)
    requires CampaignsSound(catalog, campaigns) && id in catalog.campaigns && InProgress(catalog.campaigns[id], r)
    ensures CampaignsSound(catalog, campaigns[id := r])
  {
  }

  lemma StartKeeps(catalog: Catalog, s: State, id: string, t: Moment)
    requires Loaded(catalog) && Inv(catalog, s)
    ensures Inv(catalog, StartCampaign(catalog, s, id, t).0)
  {
    if id in catalog.campaigns && !(id in s.campaigns && s.campaigns[id].status == Active) {
      var first := catalog.campaigns[id].scenarioIds[0];
      CampaignFacts(catalog, id);
      StartedInProgress(catalog, id, t);
      ActivationKeeps(catalog, map[], first, t);
      RecordKeeps(catalog, s.campaigns, id, StartedRecord(catalog.campaigns[id], t));
    }
  }

  lemma AdvancedInProgress(catalog: Catalog, id: string, r: CampaignRecord, t: Moment)
    requires Loaded(catalog) && id in catalog.campaigns
    requires InProgress(catalog.campaigns[id], r) && r.status == Active
    ensures var c := catalog.campaigns[id];
      var r' := AdvancedRecord(c, r, t);
      && InProgress(c, r') && r'.index == r.index + 1
      && (r'.status == Completed <==> r'.index == |c.scenarioIds|)
  {
    CampaignFacts(catalog, id);
    var ids := catalog.campaigns[id].scenarioIds;
    assert ids[r.index] !in ids[..r.index];
    assert ids[..r.index + 1] == ids[..r.index] + [ids[r.index]];
  }

  lemma AdvanceKeeps(catalog: Catalog, s: State, id: string, t: Moment)
    requires Loaded(catalog) && Inv(catalog, s)
    ensures Inv(catalog, Advance(catalog, s, id, t).0)
  {
    if id in catalog.campaigns && id in s.campaigns && s.campaigns[id].status == Active {
      var c, next := catalog.campaigns[id], s.campaigns[id].index + 1;
      CampaignFacts(catalog, id);
      AdvancedInProgress(catalog, id, s.campaigns[id], t);
      if next < |c.scenarioIds| {
        ActivationKeeps(catalog, if c.resetBetween then map[] else s.scenarios, c.scenarioIds[next], t);
      }
      RecordKeeps(catalog, s.campaigns, id, AdvancedRecord(c, s.campaigns[id], t));
    }
  }

  /** The part of a store that has been read so far. */
  function Part<T>(store: map<string, T>, order: seq<string>, n: nat): map<string, T>
    requires n <= |order|
  {
    map id | id in store && id in order[..n] :: store[id]
  }

  lemma PartGrows<T>(store: map<string, T>, order: seq<string>, n: nat)
    requires n < |order| && Distinct(order) && order[n] in store
    ensures order[n] !in Part(store, order, n)
    ensures Part(store, order, n + 1) == Part(store, order, n)[order[n] := store[order[n]]]
  {
    assert order[..n + 1] == order[..n] + [order[n]];
  }

  lemma {:induction false} ScenariosReadBack(catalog: Catalog, store: Scenarios, order: seq<string>, n: nat)
    requires Distinct(order) && n <= |order| && forall i :: 0 <= i < |order| ==> order[i] in store
    requires forall id :: id in store ==> id in catalog.scenarios && store[id].scenarioId == id
    ensures ReadScenarios(catalog, RecordsOf(store, order)[..n]) == Some(Part(store, order, n))
  {
    if n > 0 {
      ScenariosReadBack(catalog, store, order, n - 1);
      assert RecordsOf(store, order)[..n][..n - 1] == RecordsOf(store, order)[..n - 1];
      assert RecordsOf(store, order)[n - 1] == Record(store[order[n - 1]]);
      PartGrows(store, order, n - 1);
    }
  }

  lemma {:induction false} CampaignsReadBack(catalog: Catalog, store: Campaigns, order: seq<string>, n: nat)
    requires Loaded(catalog)
    requires Distinct(order) && n <= |order| && forall i :: 0 <= i < |order| ==> order[i] in store
    requires Restorable(catalog, store)
    ensures ReadCampaigns(catalog, RecordsOf(store, order)[..n]) == Some(Part(store, order, n))
  {
    if n > 0 {
      CampaignsReadBack(catalog, store, order, n - 1);
      assert RecordsOf(store, order)[..n][..n - 1] == RecordsOf(store, order)[..n - 1];
      assert RecordsOf(store, order)[n - 1] == Record(store[order[n - 1]]);
      PartGrows(store, order, n - 1);
    }
  }

  lemma WholePart<T>(store: map<string, T>, order: seq<string>)
    requires Lists(order, store.Keys)
    ensures forall i :: 0 <= i < |order| ==> order[i] in store
    ensures Part(store, order, |order|) == store
  {
    forall i | 0 <= i < |order| ensures order[i] in store {
      assert order[i] in Elements(order);
    }
    forall id | id in store ensures id in order[..|order|] {
      assert id in Elements(order);
      assert order[..|order|] == order;
    }
  }

  /** A snapshot of readable stores describes exactly those stores, and none of its own saves is refused. */
  lemma SavedDecodes(catalog: Catalog, s: State, id: string, order: seq<string>, campaignOrder: seq<string>)
    requires Loaded(catalog) && StoresReadable(catalog, s)
    requires Lists(order, s.scenarios.Keys) && Lists(campaignOrder, s.campaigns.Keys)
    ensures Decoded(catalog, SnapshotOf(id, s.scenarios, order, s.campaigns, campaignOrder), id)
      == Some((s.scenarios, s.campaigns))
  {
    StoredScenariosReadBack(catalog, s.scenarios, order);
    StoredCampaignsReadBack(catalog, s.campaigns, campaignOrder);
  }

  lemma StoredScenariosReadBack(catalog: Catalog, store: Scenarios, order: seq<string>)
    requires Lists(order, store.Keys)
    requires forall id :: id in store ==> id in catalog.scenarios && store[id].scenarioId == id
    ensures ReadScenarios(catalog, RecordsOf(store, order)) == Some(store)
  {
    WholePart(store, order);
    ScenariosReadBack(catalog, store, order, |order|);
    assert RecordsOf(store, order)[..|order|] == RecordsOf(store, order);
  }

  lemma StoredCampaignsReadBack(catalog: Catalog, store: Campaigns, order: seq<string>)
    requires Loaded(catalog) && Lists(order, store.Keys)
    requires Restorable(catalog, store)
    ensures ReadCampaigns(catalog, RecordsOf(store, order)) == Some(store)
  {
    WholePart(store, order);
    CampaignsReadBack(catalog, store, order, |order|);
    assert RecordsOf(store, order)[..|order|] == RecordsOf(store, order);
  }

  lemma SaveKeeps(catalog: Catalog, s: State, op: Op)
    requires Loaded(catalog) && Inv(catalog, s) && op.SaveOp? && Proper(s, op)
    ensures var s' := Apply(catalog, s, op);
      Inv(catalog, s') && Decoded(catalog, s'.snapshots[op.id], op.id) == Some((s.scenarios, s.campaigns))
  {
    SoundIsReadable(catalog, s);
    SavedDecodes(catalog, s, op.id, op.order, op.campaignOrder);
    var s' := Apply(catalog, s, op);
    forall id | id in s'.snapshots ensures ReadsSound(catalog, s'.snapshots[id], id) {
      if id != op.id {
        assert ReadsSound(catalog, s.snapshots[id], id);
      }
    }
  }

  lemma ApplyKeeps(catalog: Catalog, s: State, op: Op)
    requires Loaded(catalog) && Inv(catalog, s)
    ensures Inv(catalog, Apply(catalog, s, op))
  {
    match op
    case StartScenarioOp(_, _) =>
    case StartCampaignOp(id, t) => StartKeeps(catalog, s, id, t);
    case AdvanceOp(id, t) => AdvanceKeeps(catalog, s, id, t);
    case ResetOp =>
    case SaveOp(_, _, _) =>
      if Proper(s, op) {
        SaveKeeps(catalog, s, op);
      }
    case RestoreOp(id) =>
      assert id in s.snapshots ==> ReadsSound(catalog, s.snapshots[id], id);
  }

  lemma {:induction false} RunKeeps(catalog: Catalog, s: State, ops: seq<Op>)
    requires Loaded(catalog) && Inv(catalog, s)
    ensures Inv(catalog, Run(catalog, s, ops))
    decreases |ops|
  {
    if ops != [] {
      ApplyKeeps(catalog, s, ops[0]);
      RunKeeps(catalog, Apply(catalog, s, ops[0]), ops[1..]);
    }
  }

  // ---------------------------------------------------------------- the guarantees

  /**
   * In every state reached from sound snapshots each campaign has completed exactly the scenarios before
   * its index, and everything its active scenario needs is among them.
   */
  lemma ReachableCampaigns(catalog: Catalog, snapshots: map<string, Snapshot>, ops: seq<Op>, id: string)
    requires Loaded(catalog) && SnapshotsSound(catalog, snapshots) && id in Run(catalog, Begun(snapshots), ops).campaigns
    ensures id in catalog.campaigns
    ensures var r := Run(catalog, Begun(snapshots), ops).campaigns[id];
      && InProgress(catalog.campaigns[id], r)
      && (r.status == Active ==>
            r.current.Some? && r.current.value in catalog.scenarios
            && Elements(catalog.scenarios[r.current.value].prerequisites) <= Elements(r.completed))
  {
    RunKeeps(catalog, Begun(snapshots), ops);
    ActiveScenarioIsPrepared(catalog, id, Run(catalog, Begun(snapshots), ops).campaigns[id]);
  }

  /** Both stores hold only declared scenarios, and campaigns that have completed exactly what stands before their index. */
  ghost predicate AlwaysSound(catalog: Catalog, snapshots: map<string, Snapshot>)
    requires Loaded(catalog)
  {
    forall ops ::
      StoresSound(catalog, Run(catalog, Begun(snapshots), ops).scenarios, Run(catalog, Begun(snapshots), ops).campaigns)
  }

  lemma RestoreAlone(catalog: Catalog, s: State, id: string)
    requires Loaded(catalog)
    ensures Run(catalog, s, [RestoreOp(id)]) == Restore(catalog, s, id).0
  {
    var ops := [RestoreOp(id)];
    assert ops[1..] == [];
    assert Run(catalog, s, ops) == Run(catalog, Apply(catalog, s, ops[0]), []);
  }

  /**
   * Whatever the snapshots are, all states reached from them are sound exactly if each snapshot that is
   * accepted holds only campaign records that stand at an index of their campaign.
   */
  lemma ReachableSoundExactly(catalog: Catalog, snapshots: map<string, Snapshot>)
    requires Loaded(catalog)
    ensures AlwaysSound(catalog, snapshots) <==>
      (forall id :: id in snapshots && Decoded(catalog, snapshots[id], id).Some? ==>
        RecordsInProgress(catalog, CampaignItems(snapshots[id])))
  {
    var s := Begun(snapshots);
    forall id | id in snapshots && Decoded(catalog, snapshots[id], id).Some?
      ensures ReadsSound(catalog, snapshots[id], id) <==> RecordsInProgress(catalog, CampaignItems(snapshots[id]))
      ensures AlwaysSound(catalog, snapshots) ==> ReadsSound(catalog, snapshots[id], id)
    {
      AcceptedSnapshotIsSoundExactly(catalog, s, id);
      RestoreAlone(catalog, s, id);
    }
    if SnapshotsSound(catalog, snapshots) {
      forall ops ensures StoresSound(catalog, Run(catalog, s, ops).scenarios, Run(catalog, s, ops).campaigns) {
        RunKeeps(catalog, s, ops);
      }
    }
  }

  lemma ActiveScenarioIsPrepared(catalog: Catalog, id: string, r: CampaignRecord)
    requires Loaded(catalog) && id in catalog.campaigns && InProgress(catalog.campaigns[id], r)
    ensures r.status == Active ==>
      r.current.Some? && r.current.value in catalog.scenarios
      && Elements(catalog.scenarios[r.current.value].prerequisites) <= Elements(r.completed)
  {
    CampaignFacts(catalog, id);
    if r.status == Active {
      var c := catalog.campaigns[id];
      assert RequirementsOf(catalog.scenarios)[c.scenarioIds[r.index]] <= Elements(c.scenarioIds[..r.index]);
    }
  }

  /** The record of a campaign is in progress. */
  ghost predicate Playing(catalog: Catalog, s: State, id: string) {
    id in catalog.campaigns && id in s.campaigns && InProgress(catalog.campaigns[id], s.campaigns[id])
  }

  /** The index after so many advances, never beyond the number of scenarios. */
  function Reached(index: nat, times: nat, scenarios: nat): nat {
    if index + times < scenarios then index + times else scenarios
  }

  /** One advance of a campaign in progress. */
  lemma OneAdvance(catalog: Catalog, s: State, id: string, t: Moment)
    requires Loaded(catalog) && Playing(catalog, s, id)
    ensures var s' := Advance(catalog, s, id, t).0;
      Playing(catalog, s', id)
      && s'.campaigns[id].index == Reached(s.campaigns[id].index, 1, |catalog.campaigns[id].scenarioIds|)
  {
    if s.campaigns[id].status == Active {
      AdvancedInProgress(catalog, id, s.campaigns[id], t);
    }
  }

  predicate AdvancesCampaign(op: Op, id: string) {
    op.AdvanceOp? && op.id == id
  }

  /** How many of the operations advance the campaign. */
  function Advances(ops: seq<Op>, id: string): nat {
    if ops == [] then 0 else (if AdvancesCampaign(ops[0], id) then 1 else 0) + Advances(ops[1..], id)
  }

  /** No operation empties or replaces the stores, or plays a campaign anew that has reached its last scenario from `index`. */
  ghost predicate PlaysOn(ops: seq<Op>, id: string, index: nat, scenarios: nat) {
    && (forall i :: 0 <= i < |ops| ==> !ops[i].ResetOp? && !ops[i].RestoreOp?)
    && (forall i :: 0 <= i < |ops| && ops[i].StartCampaignOp? && ops[i].id == id ==> index + Advances(ops[..i], id) < scenarios)
  }

  lemma PlaysOnTail(ops: seq<Op>, id: string, index: nat, scenarios: nat)
    requires ops != [] && PlaysOn(ops, id, index, scenarios)
    ensures PlaysOn(ops[1..], id, Reached(index, if AdvancesCampaign(ops[0], id) then 1 else 0, scenarios), scenarios)
  {
    var rest := ops[1..];
    forall i | 0 <= i < |rest| && rest[i].StartCampaignOp? && rest[i].id == id
      ensures index + (if AdvancesCampaign(ops[0], id) then 1 else 0) + Advances(rest[..i], id) < scenarios
    {
      assert ops[..i + 1] == [ops[0]] + rest[..i] && ops[..i + 1][1..] == rest[..i];
      assert ops[i + 1] == rest[i];
    }
  }

  /** One operation beside or on a campaign in progress. */
  lemma OneOperation(catalog: Catalog, s: State, op: Op, id: string)
    requires Loaded(catalog) && Playing(catalog, s, id) && !op.ResetOp? && !op.RestoreOp?
    requires op.StartCampaignOp? && op.id == id ==> s.campaigns[id].index < |catalog.campaigns[id].scenarioIds|
    ensures var s' := Apply(catalog, s, op);
      Playing(catalog, s', id)
      && s'.campaigns[id].index ==
           Reached(s.campaigns[id].index, if AdvancesCampaign(op, id) then 1 else 0, |catalog.campaigns[id].scenarioIds|)
  {
    if AdvancesCampaign(op, id) {
      OneAdvance(catalog, s, id, op.t);
    } else {
      OtherOperation(catalog, s, op, id);
    }
  }

  lemma OtherOperation(catalog: Catalog, s: State, op: Op, id: string)
    requires Loaded(catalog) && Playing(catalog, s, id) && !op.ResetOp? && !op.RestoreOp? && !AdvancesCampaign(op, id)
    requires op.StartCampaignOp? && op.id == id ==> s.campaigns[id].status == Active
    ensures id in Apply(catalog, s, op).campaigns && Apply(catalog, s, op).campaigns[id] == s.campaigns[id]
  {
  }

  /** Over any operations, each advance of a campaign in progress completes one scenario, until all are completed. */
  lemma {:induction false} AdvancesComplete(catalog: Catalog, s: State, ops: seq<Op>, id: string)
    requires Loaded(catalog) && Playing(catalog, s, id)
    requires PlaysOn(ops, id, s.campaigns[id].index, |catalog.campaigns[id].scenarioIds|)
    ensures var s' := Run(catalog, s, ops);
      Playing(catalog, s', id)
      && s'.campaigns[id].index == Reached(s.campaigns[id].index, Advances(ops, id), |catalog.campaigns[id].scenarioIds|)
    decreases |ops|
  {
    if ops != [] {
      var n := |catalog.campaigns[id].scenarioIds|;
      assert ops[..0] == [];
      OneOperation(catalog, s, ops[0], id);
      PlaysOnTail(ops, id, s.campaigns[id].index, n);
      AdvancesComplete(catalog, Apply(catalog, s, ops[0]), ops[1..], id);
    }
  }

  /**
   * After a start, through any operations on any campaigns and scenarios, at any times and with saves in
   * between, the campaign is completed exactly when at least as many of them advanced it as it has
   * scenarios. A start after that plays it anew, and the count begins again.
   */
  lemma ExactlyAsManyAdvances(catalog: Catalog, s: State, id: string, t: Moment, ops: seq<Op>)
    requires Loaded(catalog) && id in catalog.campaigns
    requires !(id in s.campaigns && s.campaigns[id].status == Active)
    requires PlaysOn(ops, id, 0, |catalog.campaigns[id].scenarioIds|)
    ensures var s' := Run(catalog, StartCampaign(catalog, s, id, t).0, ops);
      var n := |catalog.campaigns[id].scenarioIds|;
      && id in s'.campaigns && s'.campaigns[id].index == Reached(0, Advances(ops, id), n)
      && (s'.campaigns[id].status == Completed <==> Advances(ops, id) >= n)
  {
    StartedInProgress(catalog, id, t);
    AdvancesComplete(catalog, StartCampaign(catalog, s, id, t).0, ops, id);
  }

  /** Starting an active campaign again returns it and changes nothing; other campaigns' records are never touched. */
  lemma StartAndAdvanceAreLocal(catalog: Catalog, s: State, id: string, t: Moment, other: string)
    requires Loaded(catalog) && other != id
    ensures id in catalog.campaigns && id in s.campaigns && s.campaigns[id].status == Active ==>
      StartCampaign(catalog, s, id, t) == (s, CampaignReply(s.campaigns[id]))
    ensures forall s' :: s' in {StartCampaign(catalog, s, id, t).0, Advance(catalog, s, id, t).0} ==>
      && (other in s'.campaigns <==> other in s.campaigns)
      && (other in s.campaigns ==> s'.campaigns[other] == s.campaigns[other])
      && s'.snapshots == s.snapshots
  {
  }

  /** After a start, or an advance that does not finish, the campaign's scenario is active; alone, if scenarios are reset between. */
  lemma AdvanceActivates(catalog: Catalog, s: State, id: string, t: Moment)
    requires Loaded(catalog) && Playing(catalog, s, id) && s.campaigns[id].status == Active
    ensures var c := catalog.campaigns[id];
      var s' := Advance(catalog, s, id, t).0;
      var r := s'.campaigns[id];
      && (r.status == Active ==>
            r.current.Some? && r.current.value in s'.scenarios
            && s'.scenarios[r.current.value] == Activated(catalog.scenarios[r.current.value], t))
      && (c.resetBetween ==> s'.scenarios.Keys == if r.status == Active then {r.current.value} else {})
      && (!c.resetBetween ==> s.scenarios.Keys <= s'.scenarios.Keys)
  {
    CampaignFacts(catalog, id);
    AdvancedInProgress(catalog, id, s.campaigns[id], t);
  }

  // ---------------------------------------------------------------- which scenarios are active

  /** The campaign is declared and its record is not active: a start plays it from the beginning. */
  predicate StartsAnew(catalog: Catalog, s: State, id: string) {
    id in catalog.campaigns && !(id in s.campaigns && s.campaigns[id].status == Active)
  }

  predicate MovesOn(catalog: Catalog, s: State, id: string) {
    id in catalog.campaigns && id in s.campaigns && s.campaigns[id].status == Active
  }

  /** The operation puts this scenario into the store. */
  predicate Activates(catalog: Catalog, s: State, op: Op, x: string)
    requires Loaded(catalog)
  {
    match op
    case StartScenarioOp(id, _) => id == x && x in catalog.scenarios
    case StartCampaignOp(id, _) => StartsAnew(catalog, s, id) && catalog.campaigns[id].scenarioIds[0] == x
    case AdvanceOp(id, _) =>
      && MovesOn(catalog, s, id) && s.campaigns[id].index + 1 < |catalog.campaigns[id].scenarioIds|
      && catalog.campaigns[id].scenarioIds[s.campaigns[id].index + 1] == x
    case RestoreOp(id) => Restore(catalog, s, id).1 == Done && x in Restore(catalog, s, id).0.scenarios
    case _ => false
  }

  /** The operation empties the store first: every new start of a campaign does, an advance only where scenarios are reset between. */
  predicate Clears(catalog: Catalog, s: State, op: Op) {
    match op
    case StartCampaignOp(id, _) => StartsAnew(catalog, s, id)
    case AdvanceOp(id, _) => MovesOn(catalog, s, id) && catalog.campaigns[id].resetBetween
    case ResetOp => true
    case RestoreOp(id) => Restore(catalog, s, id).1 == Done
    case _ => false
  }

  lemma StandsAfterOne(catalog: Catalog, s: State, op: Op, x: string)
    requires Loaded(catalog)
    ensures x in Apply(catalog, s, op).scenarios <==> (
      Activates(catalog, s, op, x) || (x in s.scenarios && !Clears(catalog, s, op)))
  {
  }

  ghost predicate ActivatesAt(catalog: Catalog, s: State, ops: seq<Op>, k: nat, x: string)
    requires Loaded(catalog) && k < |ops|
  {
    Activates(catalog, Run(catalog, s, ops[..k]), ops[k], x)
  }

  /** No operation from the `k`th on empties the scenario store. */
  ghost predicate NeverCleared(catalog: Catalog, s: State, ops: seq<Op>, k: nat)
    requires Loaded(catalog)
  {
    forall j :: k <= j < |ops| ==> !Clears(catalog, Run(catalog, s, ops[..j]), ops[j])
  }

  ghost predicate ActivatedSinceCleared(catalog: Catalog, s: State, ops: seq<Op>, x: string)
    requires Loaded(catalog)
  {
    exists k: nat :: k < |ops| && ActivatesAt(catalog, s, ops, k, x) && NeverCleared(catalog, s, ops, k + 1)
  }

  lemma {:induction false} RunSnoc(catalog: Catalog, s: State, ops: seq<Op>, op: Op)
    requires Loaded(catalog)
    ensures Run(catalog, s, ops + [op]) == Apply(catalog, Run(catalog, s, ops), op)
    decreases |ops|
  {
    if ops == [] {
      assert ops + [op] == [op] && [op][1..] == [];
    } else {
      assert (ops + [op])[1..] == ops[1..] + [op];
      RunSnoc(catalog, Apply(catalog, s, ops[0]), ops[1..], op);
    }
  }

  lemma NeverClearedSnoc(catalog: Catalog, s: State, front: seq<Op>, op: Op, k: nat)
    requires Loaded(catalog) && k <= |front|
    ensures NeverCleared(catalog, s, front + [op], k) <==>
      (NeverCleared(catalog, s, front, k) && !Clears(catalog, Run(catalog, s, front), op))
  {
    var ops := front + [op];
    assert ops[..|front|] == front;
    assert forall j :: 0 <= j < |front| ==> ops[..j] == front[..j] && ops[j] == front[j];
  }

  lemma ActivatedSnoc(catalog: Catalog, s: State, front: seq<Op>, op: Op, x: string)
    requires Loaded(catalog)
    ensures ActivatedSinceCleared(catalog, s, front + [op], x) <==> (
      || Activates(catalog, Run(catalog, s, front), op, x)
      || (ActivatedSinceCleared(catalog, s, front, x) && !Clears(catalog, Run(catalog, s, front), op)))
  {
    var ops := front + [op];
    var n := |front|;
    assert ops[..n] == front && ops[n] == op;
    assert NeverCleared(catalog, s, ops, n + 1);
    forall k: nat | k < n
      ensures ActivatesAt(catalog, s, ops, k, x) == ActivatesAt(catalog, s, front, k, x)
      ensures NeverCleared(catalog, s, ops, k + 1) <==>
        (NeverCleared(catalog, s, front, k + 1) && !Clears(catalog, Run(catalog, s, front), op))
    {
      assert ops[..k] == front[..k];
      NeverClearedSnoc(catalog, s, front, op, k + 1);
    }
    assert ActivatesAt(catalog, s, ops, n, x) == Activates(catalog, Run(catalog, s, front), op, x);
  }

  /**
   * After any operations a scenario is active exactly if one of them activated it and none since has
   * emptied the store, or if it was active before and none of them has.
   */
  lemma {:induction false} StandsExactly(catalog: Catalog, s: State, ops: seq<Op>, x: string)
    requires Loaded(catalog)
    ensures x in Run(catalog, s, ops).scenarios <==> (
      || ActivatedSinceCleared(catalog, s, ops, x)
      || (x in s.scenarios && NeverCleared(catalog, s, ops, 0)))
    decreases |ops|
  {
    if ops != [] {
      var n := |ops| - 1;
      var front, op := ops[..n], ops[n];
      assert ops == front + [op];
      StandsExactly(catalog, s, front, x);
      RunSnoc(catalog, s, front, op);
      StandsAfterOne(catalog, Run(catalog, s, front), op, x);
      ActivatedSnoc(catalog, s, front, op, x);
      NeverClearedSnoc(catalog, s, front, op, 0);
    }
  }

  /** An active campaign's record stays as it is through everything but its own advances, resets and restores. */
  lemma {:induction false} RecordStays(catalog: Catalog, s: State, ops: seq<Op>, id: string)
    requires Loaded(catalog) && MovesOn(catalog, s, id)
    requires forall i :: 0 <= i < |ops| ==> !ops[i].ResetOp? && !ops[i].RestoreOp? && !AdvancesCampaign(ops[i], id)
    ensures id in Run(catalog, s, ops).campaigns && Run(catalog, s, ops).campaigns[id] == s.campaigns[id]
    decreases |ops|
  {
    if ops != [] {
      RecordStays(catalog, Apply(catalog, s, ops[0]), ops[1..], id);
    }
  }

  /**
   * While other campaigns and scenarios are played, an active campaign's record stays, and its current
   * scenario, active before, still is so exactly if nobody has emptied the store or somebody has
   * activated that scenario since.
   */
  lemma CurrentStandsExactly(catalog: Catalog, s: State, ops: seq<Op>, id: string)
    requires Loaded(catalog) && Playing(catalog, s, id) && s.campaigns[id].status == Active
    requires s.campaigns[id].current.value in s.scenarios
    requires forall i :: 0 <= i < |ops| ==> !ops[i].ResetOp? && !ops[i].RestoreOp? && !AdvancesCampaign(ops[i], id)
    ensures var s', x := Run(catalog, s, ops), s.campaigns[id].current.value;
      && id in s'.campaigns && s'.campaigns[id] == s.campaigns[id]
      && (x in s'.scenarios <==> NeverCleared(catalog, s, ops, 0) || ActivatedSinceCleared(catalog, s, ops, x))
  {
    RecordStays(catalog, s, ops, id);
    StandsExactly(catalog, s, ops, s.campaigns[id].current.value);
  }

  /** Starting another campaign takes the current scenario from a running one, unless the other begins with it. */
  lemma OtherStartTakesScenario(catalog: Catalog, s: State, id: string, other: string, t: Moment)
    requires Loaded(catalog) && Playing(catalog, s, id) && s.campaigns[id].status == Active
    requires other != id && StartsAnew(catalog, s, other)
    ensures var s' := StartCampaign(catalog, s, other, t).0;
      && id in s'.campaigns && s'.campaigns[id] == s.campaigns[id]
      && (s.campaigns[id].current.value in s'.scenarios
          <==> s.campaigns[id].current.value == catalog.campaigns[other].scenarioIds[0])
  {
    StandsAfterOne(catalog, s, StartCampaignOp(other, t), s.campaigns[id].current.value);
  }

  lemma {:induction false} SnapshotStays(catalog: Catalog, s: State, ops: seq<Op>, id: string)
    requires Loaded(catalog) && id in s.snapshots
    ensures id in Run(catalog, s, ops).snapshots && Run(catalog, s, ops).snapshots[id] == s.snapshots[id]
    decreases |ops|
  {
    if ops != [] {
      SnapshotStays(catalog, Apply(catalog, s, ops[0]), ops[1..], id);
    }
  }

  lemma {:induction false} ReadCampaignsAreRestorable(catalog: Catalog, items: seq<Item<CampaignRecord>>)
    requires ReadCampaigns(catalog, items).Some?
    ensures Restorable(catalog, ReadCampaigns(catalog, items).value)
  {
    if items != [] {
      ReadCampaignsAreRestorable(catalog, items[..|items| - 1]);
    }
  }

  lemma StartKeepsReadable(catalog: Catalog, s: State, id: string, t: Moment)
    requires Loaded(catalog) && StoresReadable(catalog, s)
    ensures StoresReadable(catalog, StartCampaign(catalog, s, id, t).0)
  {
    if StartsAnew(catalog, s, id) {
      CampaignFacts(catalog, id);
      RestorableStays(catalog, s.campaigns, id, StartedRecord(catalog.campaigns[id], t));
      ActivationKeeps(catalog, map[], catalog.campaigns[id].scenarioIds[0], t);
    }
  }

  lemma RestorableStays(catalog: Catalog, campaigns: Campaigns, id: string, r: CampaignRecord)
    requires Restorable(catalog, campaigns) && id in catalog.campaigns && r.campaignId == id
    requires r.scenarioIds == catalog.campaigns[id].scenarioIds && r.status != OtherStatus
    ensures Restorable(catalog, campaigns[id := r])
  {
  }

  lemma AdvanceKeepsReadable(catalog: Catalog, s: State, id: string, t: Moment)
    requires Loaded(catalog) && StoresReadable(catalog, s)
    ensures StoresReadable(catalog, Advance(catalog, s, id, t).0)
  {
    if MovesOn(catalog, s, id) {
      var c, next := catalog.campaigns[id], s.campaigns[id].index + 1;
      CampaignFacts(catalog, id);
      RestorableStays(catalog, s.campaigns, id, AdvancedRecord(c, s.campaigns[id], t));
      if next < |c.scenarioIds| {
        ActivationKeeps(catalog, if c.resetBetween then map[] else s.scenarios, c.scenarioIds[next], t);
      }
    }
  }

  lemma RestoreKeepsReadable(catalog: Catalog, s: State, id: string)
    requires StoresReadable(catalog, s)
    ensures StoresReadable(catalog, Restore(catalog, s, id).0)
  {
    if Restore(catalog, s, id).1 == Done {
      ReadIsDeclared(catalog, s.snapshots[id].state.value);
      ReadCampaignsAreRestorable(catalog, CampaignItems(s.snapshots[id]));
    }
  }

  lemma ApplyKeepsReadable(catalog: Catalog, s: State, op: Op)
    requires Loaded(catalog) && StoresReadable(catalog, s)
    ensures StoresReadable(catalog, Apply(catalog, s, op))
  {
    match op
    case StartCampaignOp(id, t) => StartKeepsReadable(catalog, s, id, t);
    case AdvanceOp(id, t) => AdvanceKeepsReadable(catalog, s, id, t);
    case RestoreOp(id) => RestoreKeepsReadable(catalog, s, id);
    case _ =>
  }

  lemma {:induction false} RunKeepsReadable(catalog: Catalog, s: State, ops: seq<Op>)
    requires Loaded(catalog) && StoresReadable(catalog, s)
    ensures StoresReadable(catalog, Run(catalog, s, ops))
    decreases |ops|
  {
    if ops != [] {
      ApplyKeepsReadable(catalog, s, ops[0]);
      RunKeepsReadable(catalog, Apply(catalog, s, ops[0]), ops[1..]);
    }
  }

  /**
   * Snapshot and restore undo each other: whatever the earlier snapshots hold and whatever happens
   * after a save, restoring it is accepted and reproduces both stores as they were.
   */
  lemma RestoreUndoes(catalog: Catalog, snapshots: map<string, Snapshot>, before: seq<Op>, save: Op, after: seq<Op>)
    requires Loaded(catalog)
    requires save.SaveOp? && Proper(Run(catalog, Begun(snapshots), before), save)
    ensures var s := Run(catalog, Begun(snapshots), before);
      var later := Run(catalog, Apply(catalog, s, save), after);
      Restore(catalog, later, save.id) == (later.(scenarios := s.scenarios, campaigns := s.campaigns), Done)
  {
    var s := Run(catalog, Begun(snapshots), before);
    RunKeepsReadable(catalog, Begun(snapshots), before);
    SavedDecodes(catalog, s, save.id, save.order, save.campaignOrder);
    SnapshotStays(catalog, Apply(catalog, s, save), after, save.id);
  }

  /** A refused snapshot, whatever it contains, leaves both stores as they were; an accepted one replaces both entirely. */
  lemma RestoreIsAllOrNothing(catalog: Catalog, s: State, id: string)
    ensures var (s', reply) := Restore(catalog, s, id);
      && s'.snapshots == s.snapshots
      && (reply != Done ==> s' == s)
      && (reply == Done <==> id in s.snapshots && Decoded(catalog, s.snapshots[id], id) == Some((s'.scenarios, s'.campaigns)))
  {
  }

  /** A snapshot of the older schema may hold no campaigns. */
  function CampaignItems(snapshot: Snapshot): seq<Item<CampaignRecord>> {
    if snapshot.Snapshot? && snapshot.campaigns.Some? then snapshot.campaigns.value else []
  }

  /** Every campaign record of a snapshot stands at an index of its campaign. */
  ghost predicate RecordsInProgress(catalog: Catalog, items: seq<Item<CampaignRecord>>) {
    forall i :: 0 <= i < |items| ==>
      items[i].Record? && items[i].record.campaignId in catalog.campaigns
      && InProgress(catalog.campaigns[items[i].record.campaignId], items[i].record)
  }

  lemma {:induction false} ReadCampaignsAreDeclared(catalog: Catalog, items: seq<Item<CampaignRecord>>)
    ensures match ReadCampaigns(catalog, items)
      case None => true
      case Some(read) =>
        && (forall id :: id in read ==> id in catalog.campaigns && read[id].campaignId == id && Record(read[id]) in items)
        && (forall i :: 0 <= i < |items| ==>
              items[i].Record? && items[i].record.campaignId in read && read[items[i].record.campaignId] == items[i].record)
  {
    if items != [] {
      ReadCampaignsAreDeclared(catalog, items[..|items| - 1]);
      assert items == items[..|items| - 1] + [items[|items| - 1]];
    }
  }

  lemma ReadCampaignsAreSound(catalog: Catalog, items: seq<Item<CampaignRecord>>)
    requires ReadCampaigns(catalog, items).Some?
    ensures CampaignsSound(catalog, ReadCampaigns(catalog, items).value) <==> RecordsInProgress(catalog, items)
  {
    ReadCampaignsAreDeclared(catalog, items);
    var read := ReadCampaigns(catalog, items).value;
    if RecordsInProgress(catalog, items) {
      forall id | id in read ensures InProgress(catalog.campaigns[id], read[id]) {
        var i :| 0 <= i < |items| && items[i] == Record(read[id]);
      }
    }
  }

  /**
   * An accepted snapshot from anywhere leaves sound stores, from which all results about progress hold,
   * exactly if each of its campaign records stands at an index of its campaign; the check of a
   * snapshot compares only the scenario list and the status.
   */
  lemma AcceptedSnapshotIsSoundExactly(catalog: Catalog, s: State, id: string)
    requires Restore(catalog, s, id).1 == Done
    ensures s.snapshots[id].Snapshot?
    ensures var (s', _) := Restore(catalog, s, id);
      StoresSound(catalog, s'.scenarios, s'.campaigns) <==> RecordsInProgress(catalog, CampaignItems(s.snapshots[id]))
  {
    var s' := Restore(catalog, s, id).0;
    ReadIsDeclared(catalog, s.snapshots[id].state.value);
    ReadCampaignsAreSound(catalog, CampaignItems(s.snapshots[id]));
    assert StoresSound(catalog, s'.scenarios, s'.campaigns) <==> CampaignsSound(catalog, s'.campaigns);
  }

  /** What is restored from any snapshot is declared and under its own name, so restored stores are readable by every request. */
  lemma {:induction false} ReadIsDeclared(catalog: Catalog, items: seq<Item<ScenarioRecord>>)
    ensures match ReadScenarios(catalog, items)
      case None => true
      case Some(read) =>
        && |read| == |items|
        && (forall id :: id in read ==> id in catalog.scenarios && read[id].scenarioId == id && Record(read[id]) in items)
        && (forall i :: 0 <= i < |items| ==> items[i].Record? && items[i].record.scenarioId in read)
  {
    if items != [] {
      ReadIsDeclared(catalog, items[..|items| - 1]);
      assert items == items[..|items| - 1] + [items[|items| - 1]];
    }
  }

  // ---------------------------------------------------------------- what the records say

  /** A scenario record says what the catalog declares, with one of its variants exactly if it is blind and has some. */
  predicate TellsTrue(s: Scenario, r: ScenarioRecord) {
    && r.scenarioId == s.id && r.version == s.version && r.target == s.target && r.blind == s.blind
    && (r.variant.Some? <==> s.blind && s.variants != [])
    && (r.variant.Some? ==> r.variant.value.id in s.variants)
  }

  /** An activation tells true, at its own time and with the nonce drawn for it. */
  lemma ActivationTellsTrue(s: Scenario, t: Moment)
    ensures var r := Activated(s, t);
      TellsTrue(s, r) && r.startedAt == t.now && (r.variant.Some? ==> r.variant.value.nonce == t.nonce)
  {
  }

  lemma SmallRemainder(i: nat, n: nat)
    requires i < n
    ensures i % n == i
  {
  }

  /** Each variant of a blind scenario can be the one that is chosen. */
  lemma AnyVariantIsChosen(s: Scenario, t: Moment, i: nat)
    requires s.blind && i < |s.variants|
    ensures Activated(s, t.(pick := i)).variant == Some(Variant(s.variants[i], t.nonce))
  {
    SmallRemainder(i, |s.variants|);
  }

  predicate CampaignTellsTrue(c: Campaign, r: CampaignRecord) {
    r.campaignId == c.id && r.version == c.version && r.scenarioIds == c.scenarioIds && r.resetBetween == c.resetBetween && r.blind == c.blind
  }

  ghost predicate StoresTellTrue(catalog: Catalog, scenarios: Scenarios, campaigns: Campaigns) {
    && (forall id :: id in scenarios ==> id in catalog.scenarios && TellsTrue(catalog.scenarios[id], scenarios[id]))
    && (forall id :: id in campaigns ==> id in catalog.campaigns && CampaignTellsTrue(catalog.campaigns[id], campaigns[id]))
  }

  ghost predicate SnapshotTellsTrue(catalog: Catalog, snapshot: Snapshot, id: string) {
    match Decoded(catalog, snapshot, id)
    case None => true
    case Some((scenarios, campaigns)) => StoresTellTrue(catalog, scenarios, campaigns)
  }

  ghost predicate AllTellTrue(catalog: Catalog, s: State) {
    && StoresReadable(catalog, s) && StoresTellTrue(catalog, s.scenarios, s.campaigns)
    && forall id :: id in s.snapshots ==> SnapshotTellsTrue(catalog, s.snapshots[id], id)
  }

  lemma ActivatedStoreTellsTrue(catalog: Catalog, scenarios: Scenarios, campaigns: Campaigns, id: string, t: Moment)
    requires Loaded(catalog) && StoresTellTrue(catalog, scenarios, campaigns) && id in catalog.scenarios
    ensures StoresTellTrue(catalog, scenarios[id := Activated(catalog.scenarios[id], t)], campaigns)
  {
    ActivationTellsTrue(catalog.scenarios[id], t);
  }

  lemma RecordedStoreTellsTrue(catalog: Catalog, scenarios: Scenarios, campaigns: Campaigns, id: string, r: CampaignRecord)
    requires StoresTellTrue(catalog, scenarios, campaigns) && id in catalog.campaigns && CampaignTellsTrue(catalog.campaigns[id], r)
    ensures StoresTellTrue(catalog, scenarios, campaigns[id := r])
  {
  }

  lemma StartTellsTrue(catalog: Catalog, s: State, id: string, t: Moment)
    requires Loaded(catalog) && StoresTellTrue(catalog, s.scenarios, s.campaigns)
    ensures var s' := StartCampaign(catalog, s, id, t).0; StoresTellTrue(catalog, s'.scenarios, s'.campaigns)
  {
    if StartsAnew(catalog, s, id) {
      var c := catalog.campaigns[id];
      CampaignFacts(catalog, id);
      ActivatedStoreTellsTrue(catalog, map[], s.campaigns, c.scenarioIds[0], t);
      RecordedStoreTellsTrue(catalog, map[c.scenarioIds[0] := Activated(catalog.scenarios[c.scenarioIds[0]], t)], s.campaigns, id, StartedRecord(c, t));
    }
  }

  lemma AdvancedStoreTellsTrue(catalog: Catalog, s: State, id: string, t: Moment)
    requires Loaded(catalog) && StoresTellTrue(catalog, s.scenarios, s.campaigns) && MovesOn(catalog, s, id)
    ensures StoresTellTrue(catalog, Advance(catalog, s, id, t).0.scenarios, s.campaigns)
  {
    var c, next := catalog.campaigns[id], s.campaigns[id].index + 1;
    var kept: Scenarios := if c.resetBetween then map[] else s.scenarios;
    CampaignFacts(catalog, id);
    if next < |c.scenarioIds| {
      ActivatedStoreTellsTrue(catalog, kept, s.campaigns, c.scenarioIds[next], t);
    }
  }

  lemma AdvanceTellsTrue(catalog: Catalog, s: State, id: string, t: Moment)
    requires Loaded(catalog) && StoresTellTrue(catalog, s.scenarios, s.campaigns)
    ensures var s' := Advance(catalog, s, id, t).0; StoresTellTrue(catalog, s'.scenarios, s'.campaigns)
  {
    if MovesOn(catalog, s, id) {
      var r := AdvancedRecord(catalog.campaigns[id], s.campaigns[id], t);
      AdvancedStoreTellsTrue(catalog, s, id, t);
      RecordedStoreTellsTrue(catalog, Advance(catalog, s, id, t).0.scenarios, s.campaigns, id, r);
    }
  }

  lemma SaveTellsTrue(catalog: Catalog, s: State, op: Op)
    requires Loaded(catalog) && AllTellTrue(catalog, s) && op.SaveOp? && Proper(s, op)
    ensures AllTellTrue(catalog, Apply(catalog, s, op))
  {
    var s' := Apply(catalog, s, op);
    SavedDecodes(catalog, s, op.id, op.order, op.campaignOrder);
    forall id | id in s'.snapshots ensures SnapshotTellsTrue(catalog, s'.snapshots[id], id) {
      if id != op.id {
        assert SnapshotTellsTrue(catalog, s.snapshots[id], id);
      }
    }
  }

  lemma ApplyTellsTrue(catalog: Catalog, s: State, op: Op)
    requires Loaded(catalog) && AllTellTrue(catalog, s)
    ensures AllTellTrue(catalog, Apply(catalog, s, op))
  {
    ApplyKeepsReadable(catalog, s, op);
    match op
    case StartScenarioOp(id, t) =>
      if id in catalog.scenarios {
        ActivatedStoreTellsTrue(catalog, s.scenarios, s.campaigns, id, t);
      }
    case StartCampaignOp(id, t) => StartTellsTrue(catalog, s, id, t);
    case AdvanceOp(id, t) => AdvanceTellsTrue(catalog, s, id, t);
    case ResetOp =>
    case SaveOp(_, _, _) =>
      if Proper(s, op) {
        SaveTellsTrue(catalog, s, op);
      }
    case RestoreOp(id) =>
      assert id in s.snapshots ==> SnapshotTellsTrue(catalog, s.snapshots[id], id);
  }

  lemma {:induction false} RunTellsTrue(catalog: Catalog, s: State, ops: seq<Op>)
    requires Loaded(catalog) && AllTellTrue(catalog, s)
    ensures AllTellTrue(catalog, Run(catalog, s, ops))
    decreases |ops|
  {
    if ops != [] {
      ApplyTellsTrue(catalog, s, ops[0]);
      RunTellsTrue(catalog, Apply(catalog, s, ops[0]), ops[1..]);
    }
  }

  /** In every state reached from snapshots that tell true, every record of both stores says what the catalog declares. */
  lemma ReachableRecordsTellTrue(catalog: Catalog, snapshots: map<string, Snapshot>, ops: seq<Op>)
    requires Loaded(catalog) && forall id :: id in snapshots ==> SnapshotTellsTrue(catalog, snapshots[id], id)
    ensures var s := Run(catalog, Begun(snapshots), ops); StoresTellTrue(catalog, s.scenarios, s.campaigns)
  {
    RunTellsTrue(catalog, Begun(snapshots), ops);
  }

  /** What is shown of a true record never tells the variant of a blind scenario, and nothing else is withheld. */
  lemma BlindVariantsStayHidden(s: Scenario, r: ScenarioRecord)
    requires TellsTrue(s, r)
    ensures Public(r).variant == None && Public(r) == r.(variant := None)
  {
  }

  lemma NothingElseIsHidden(r: ScenarioRecord)
    ensures !r.blind ==> Public(r) == r
    ensures Public(r).(variant := r.variant) == r
  {
  }

  /** An advance, of whatever record, adds the current scenario to the completed ones, unless it has no name or is there; so none is there twice. */
  lemma AdvanceCompletesOnce(c: Campaign, r: CampaignRecord, t: Moment)
    ensures var r' := AdvancedRecord(c, r, t);
      && r.completed <= r'.completed && |r'.completed| <= |r.completed| + 1
      && (CurrentText(r) != "" ==> CurrentText(r) in r'.completed)
      && ("" !in r.completed ==> "" !in r'.completed) && (Distinct(r.completed) ==> Distinct(r'.completed))
  {
  }

  /** A start is dated anew; an advance keeps the start and is dated itself. */
  lemma MovesAreDated(catalog: Catalog, s: State, id: string, t: Moment)
    requires Loaded(catalog)
    ensures StartsAnew(catalog, s, id) ==>
      var r := StartCampaign(catalog, s, id, t).0.campaigns[id]; r.startedAt == r.updatedAt == t.now
    ensures MovesOn(catalog, s, id) ==>
      var r := Advance(catalog, s, id, t).0.campaigns[id]; r.startedAt == s.campaigns[id].startedAt && r.updatedAt == t.now
  {
  }

  /** Replies: what is not declared is not found, what has not started conflicts, and otherwise the record in the store is returned. */
  lemma RepliesTellTheStore(catalog: Catalog, s: State, id: string, t: Moment)
    requires Loaded(catalog)
    ensures var (s', reply) := StartScenario(catalog, s, id, t);
      reply == if id in catalog.scenarios then ScenarioReply(Public(s'.scenarios[id])) else NotFound
    ensures var (s', reply) := StartCampaign(catalog, s, id, t);
      if id in catalog.campaigns then id in s'.campaigns && reply == CampaignReply(s'.campaigns[id]) else reply == NotFound && s' == s
    ensures var (s', reply) := Advance(catalog, s, id, t);
      if id !in catalog.campaigns then reply == NotFound && s' == s
      else if id !in s.campaigns then reply == Conflict && s' == s
      else id in s'.campaigns && reply == CampaignReply(s'.campaigns[id])
  {
  }

  // ---------------------------------------------------------------- which snapshots are accepted

  /** The items are records of declared scenarios, none twice. */
  ghost predicate ScenariosAcceptable(catalog: Catalog, items: seq<Item<ScenarioRecord>>) {
    && (forall i :: 0 <= i < |items| ==> items[i].Record? && items[i].record.scenarioId in catalog.scenarios)
    && (forall i, j :: 0 <= i < j < |items| ==> items[i].record.scenarioId != items[j].record.scenarioId)
  }

  /** The items are records of declared campaigns, none twice, with the catalog's scenarios and a known status. */
  ghost predicate CampaignsAcceptable(catalog: Catalog, items: seq<Item<CampaignRecord>>) {
    && (forall i :: 0 <= i < |items| ==> items[i].Record? && CampaignAcceptable(catalog, items[i].record))
    && (forall i, j :: 0 <= i < j < |items| ==> items[i].record.campaignId != items[j].record.campaignId)
  }

  predicate CampaignAcceptable(catalog: Catalog, r: CampaignRecord) {
    && r.campaignId in catalog.campaigns && r.scenarioIds == catalog.campaigns[r.campaignId].scenarioIds
    && (r.status == Active || r.status == Completed)
  }

  lemma ScenariosSnoc(catalog: Catalog, front: seq<Item<ScenarioRecord>>, item: Item<ScenarioRecord>)
    requires ScenariosAcceptable(catalog, front)
    ensures ScenariosAcceptable(catalog, front + [item]) <==>
      && item.Record? && item.record.scenarioId in catalog.scenarios
      && forall i :: 0 <= i < |front| ==> front[i].record.scenarioId != item.record.scenarioId
  {
    var items := front + [item];
    assert items[|front|] == item && forall i :: 0 <= i < |front| ==> items[i] == front[i];
  }

  lemma ReadScenariosAre(catalog: Catalog, items: seq<Item<ScenarioRecord>>, id: string)
    requires ReadScenarios(catalog, items).Some?
    ensures forall i :: 0 <= i < |items| ==> items[i].Record?
    ensures id in ReadScenarios(catalog, items).value <==> exists i :: 0 <= i < |items| && items[i].record.scenarioId == id
  {
    ReadIsDeclared(catalog, items);
    var read := ReadScenarios(catalog, items).value;
    if id in read {
      var i :| 0 <= i < |items| && items[i] == Record(read[id]);
      assert items[i].record.scenarioId == id;
    }
  }

  lemma {:induction false} ScenariosReadExactly(catalog: Catalog, items: seq<Item<ScenarioRecord>>)
    ensures ReadScenarios(catalog, items).Some? <==> ScenariosAcceptable(catalog, items)
  {
    if items != [] {
      var n := |items| - 1;
      var front, item := items[..n], items[n];
      assert items == front + [item];
      ScenariosReadExactly(catalog, front);
      if ReadScenarios(catalog, front).Some? {
        ScenariosSnoc(catalog, front, item);
        if item.Record? {
          ReadScenariosAre(catalog, front, item.record.scenarioId);
        }
      } else {
        ScenariosPrefix(catalog, front, item);
      }
    }
  }

  lemma ScenariosPrefix(catalog: Catalog, front: seq<Item<ScenarioRecord>>, item: Item<ScenarioRecord>)
    requires !ScenariosAcceptable(catalog, front)
    ensures !ScenariosAcceptable(catalog, front + [item])
  {
    assert forall i :: 0 <= i < |front| ==> (front + [item])[i] == front[i];
  }

  lemma CampaignsSnoc(catalog: Catalog, front: seq<Item<CampaignRecord>>, item: Item<CampaignRecord>)
    requires CampaignsAcceptable(catalog, front)
    ensures CampaignsAcceptable(catalog, front + [item]) <==>
      && item.Record? && CampaignAcceptable(catalog, item.record)
      && forall i :: 0 <= i < |front| ==> front[i].record.campaignId != item.record.campaignId
  {
    var items := front + [item];
    assert items[|front|] == item && forall i :: 0 <= i < |front| ==> items[i] == front[i];
  }

  lemma ReadCampaignsAre(catalog: Catalog, items: seq<Item<CampaignRecord>>, id: string)
    requires ReadCampaigns(catalog, items).Some?
    ensures forall i :: 0 <= i < |items| ==> items[i].Record?
    ensures id in ReadCampaigns(catalog, items).value <==> exists i :: 0 <= i < |items| && items[i].record.campaignId == id
  {
    ReadCampaignsAreDeclared(catalog, items);
    var read := ReadCampaigns(catalog, items).value;
    if id in read {
      var i :| 0 <= i < |items| && items[i] == Record(read[id]);
      assert items[i].record.campaignId == id;
    }
  }

  lemma {:induction false} CampaignsReadExactly(catalog: Catalog, items: seq<Item<CampaignRecord>>)
    ensures ReadCampaigns(catalog, items).Some? <==> CampaignsAcceptable(catalog, items)
  {
    if items != [] {
      var n := |items| - 1;
      var front, item := items[..n], items[n];
      assert items == front + [item];
      CampaignsReadExactly(catalog, front);
      if ReadCampaigns(catalog, front).Some? {
        CampaignsSnoc(catalog, front, item);
        if item.Record? {
          ReadCampaignsAre(catalog, front, item.record.campaignId);
        }
      } else {
        CampaignsPrefix(catalog, front, item);
      }
    }
  }

  lemma CampaignsPrefix(catalog: Catalog, front: seq<Item<CampaignRecord>>, item: Item<CampaignRecord>)
    requires !CampaignsAcceptable(catalog, front)
    ensures !CampaignsAcceptable(catalog, front + [item])
  {
    assert forall i :: 0 <= i < |front| ==> (front + [item])[i] == front[i];
  }

  /** A snapshot is restored exactly if it is there, of the range, of a known schema and its own, with both lists its schema asks for, and its records are acceptable. */
  lemma RestoresExactly(catalog: Catalog, s: State, id: string)
    ensures Restore(catalog, s, id).1 == Done <==>
      && id in s.snapshots && s.snapshots[id].Snapshot?
      && var snapshot := s.snapshots[id];
         && (snapshot.schema == 1 || snapshot.schema == 2) && snapshot.cyberRange && snapshot.id == id
         && snapshot.state.Some? && (snapshot.schema == 2 ==> snapshot.campaigns.Some?)
         && ScenariosAcceptable(catalog, snapshot.state.value) && CampaignsAcceptable(catalog, CampaignItems(snapshot))
    ensures Restore(catalog, s, id).1 in {Done, NotFound, InvalidSnapshot} && (Restore(catalog, s, id).1 == NotFound <==> id !in s.snapshots)
  {
    if id in s.snapshots && s.snapshots[id].Snapshot? && s.snapshots[id].state.Some? {
      ScenariosReadExactly(catalog, s.snapshots[id].state.value);
      CampaignsReadExactly(catalog, CampaignItems(s.snapshots[id]));
    }
  }
}
