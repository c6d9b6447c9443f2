/**
 * The cyber range's catalogs: scenario manifests with prerequisites, and ordered campaigns over them.
 */
module RangeCatalog {
  import opened Options
  import MissionDag
  import Text

  // ---------------------------------------------------------------- the files as they are read

  /** A field of a JSON object; `Wrong` has another type than the field should have. */
  datatype Field<+T> = Absent | Wrong | Given(value: T)

  datatype VariantEntry = VariantEntry(id: Field<string>, focus: Field<string>)

  /** One entry of the scenario list; an entry that is no object has no fields. */
  datatype ScenarioEntry = ScenarioEntry(
    id: Field<string>, version: Field<int>, target: Field<string>, family: Field<string>, difficulty: Field<int>,
    objectives: Field<seq<string>>, prerequisites: Field<seq<string>>, successCriteria: Field<seq<string>>,
    failureCriteria: Field<seq<string>>, resetPolicy: Field<string>, purpleRequired: Field<bool>, blind: Field<bool>,
    variants: Field<seq<VariantEntry>>)

  datatype CampaignEntry = CampaignEntry(
    id: Field<string>, version: Field<int>, scenarioIds: Field<seq<string>>, completionPolicy: Field<string>,
    resetBetween: Field<bool>, blind: Field<bool>)

  datatype CatalogFile<T> = CatalogFile(schema: Field<int>, environment: Field<string>, entries: Field<seq<T>>)

  /** What an accepted entry declares. */
  datatype Scenario = Scenario(id: string, version: nat, target: string, prerequisites: seq<string>, blind: bool, variants: seq<string>)

  datatype Campaign = Campaign(id: string, version: nat, scenarioIds: seq<string>, resetBetween: bool, blind: bool)

  datatype CatalogError =
    | UnsupportedSchema
    | EntriesNotAList
    | InvalidOrDuplicateId
    | InvalidField
    | InvalidVariant
    | TooFewVariants
    | PrerequisitesNotDeclared
    | UndeclaredScenario
    | RepeatedScenario
    | OrderViolatesPrerequisites

  const FAMILIES := {"web_application", "authorization", "detection"}

  // ---------------------------------------------------------------- fields

  predicate IsIdStart(c: char) {
    'A' <= c <= 'Z' || 'a' <= c <= 'z' || '0' <= c <= '9'
  }

  /** The whole text matches an alphanumeric followed by at most 63 of the same, dot, underscore or hyphen. */
  predicate IsId(text: string) {
    && 0 < |text| <= 64 && IsIdStart(text[0])
    && forall i :: 0 < i < |text| ==> IsIdStart(text[i]) || text[i] in {'.', '_', '-'}
  }

  /** An identifier is the name of one file: no directory, none above, and none hidden. */
  lemma IdsAreFileNames(text: string)
    requires IsId(text)
    ensures text != "" && |text| <= 64 && '/' !in text && '\\' !in text && text[0] != '.'
  {
    forall i | 0 <= i < |text| ensures text[i] != '/' && text[i] != '\\' {
      assert i == 0 || IsIdStart(text[i]) || text[i] in {'.', '_', '-'};
    }
  }

  /** Every dot, underscore or hyphen behind an alphanumeric is allowed. */
  lemma DottedIdsAreIds(text: string, more: char)
    requires IsId(text) && |text| < 64 && more in {'.', '_', '-'}
    ensures IsId(text + [more])
  {
  }

  predicate ValidStrings(f: Field<seq<string>>, allowEmpty: bool) {
    && f.Given? && (allowEmpty || f.value != [])
    && forall i :: 0 <= i < |f.value| ==> Text.Trim(f.value[i], Text.IsPythonSpace) != "" && |f.value[i]| <= 256
  }

  /** A list that may be left out. */
  function OrEmpty<T>(f: Field<seq<T>>): Field<seq<T>> {
    if f.Absent? then Given([]) else f
  }

  /** Of each list a manifest must have entries; every entry says something, in at most 256 characters. */
  lemma ManifestsSaySomething(e: ScenarioEntry, text: string)
    requires ValidScenario(e)
    requires text in e.objectives.value + e.successCriteria.value + e.failureCriteria.value + OrEmpty(e.prerequisites).value
    ensures e.objectives.value != [] && e.successCriteria.value != [] && e.failureCriteria.value != []
    ensures |text| <= 256 && Text.Trim(text, Text.IsPythonSpace) != ""
  {
  }

  /** A scenario without prerequisites may leave the list out or give it empty, and a list of short texts is valid. */
  lemma ShortTextsAreValid(texts: seq<string>)
    requires forall i :: 0 <= i < |texts| ==> |texts[i]| <= 256 && Text.Trim(texts[i], Text.IsPythonSpace) != ""
    ensures ValidStrings(OrEmpty(Given(texts)), true) && ValidStrings(OrEmpty<string>(Absent), true)
    ensures ValidStrings(Given(texts), false) <==> texts != []
  {
  }

  predicate ValidVariant(v: VariantEntry) {
    v.id.Given? && IsId(v.id.value) && v.focus.Given? && v.focus.value != ""
  }

  /** What the manifest of one scenario has to declare, besides prerequisites that exist. */
  ghost predicate ValidScenario(e: ScenarioEntry) {
    && e.id.Given? && IsId(e.id.value)
    && e.version.Given? && e.version.value >= 1
    && e.target.Given? && e.target.value != ""
    && e.family.Given? && e.family.value in FAMILIES
    && e.difficulty.Given? && 1 <= e.difficulty.value <= 5
    && ValidStrings(e.objectives, false) && ValidStrings(OrEmpty(e.prerequisites), true)
    && ValidStrings(e.successCriteria, false) && ValidStrings(e.failureCriteria, false)
    && e.resetPolicy == Given("deterministic")
    && e.purpleRequired.Given? && e.blind.Given?
    && ValidVariants(OrEmpty(e.variants))
    && (e.blind.value ==> |OrEmpty(e.variants).value| >= 2)
  }

  ghost predicate ValidVariants(f: Field<seq<VariantEntry>>) {
    && f.Given?
    && (forall i :: 0 <= i < |f.value| ==> ValidVariant(f.value[i]))
    && forall i, j :: 0 <= i < j < |f.value| ==> f.value[i].id != f.value[j].id
  }

  method CheckVariants(variants: seq<VariantEntry>) returns (ok: bool)
    ensures ok <==> ValidVariants(Given(variants))
  {
    var ids: set<string> := {};
    for i := 0 to |variants|
      invariant forall j :: 0 <= j < i ==> ValidVariant(variants[j]) && variants[j].id.value in ids
      invariant forall j, k :: 0 <= j < k < i ==> variants[j].id != variants[k].id
      invariant forall id :: id in ids ==> exists j :: 0 <= j < i && variants[j].id == Given(id)
    {
      var v := variants[i];
      if !v.id.Given? || !IsId(v.id.value) || v.id.value in ids || !v.focus.Given? || v.focus.value == "" {
        return false;
      }
      ids := ids + {v.id.value};
    }
    ok := true;
  }

  /** The checks of one manifest, the first that fails. */
  method CheckScenario(e: ScenarioEntry, ids: set<string>) returns (error: Option<CatalogError>)
    ensures error == None <==> ValidScenario(e) && e.id.value !in ids
  {
    if !e.id.Given? || !IsId(e.id.value) || e.id.value in ids {
      return Some(InvalidOrDuplicateId);
    }
    if !e.version.Given? || e.version.value < 1 || !e.target.Given? || e.target.value == "" {
      return Some(InvalidField);
    }
    if !e.family.Given? || e.family.value !in FAMILIES || !e.difficulty.Given? || !(1 <= e.difficulty.value <= 5) {
      return Some(InvalidField);
    }
    if !ValidStrings(e.objectives, false) || !ValidStrings(OrEmpty(e.prerequisites), true) {
      return Some(InvalidField);
    }
    if !ValidStrings(e.successCriteria, false) || !ValidStrings(e.failureCriteria, false) {
      return Some(InvalidField);
    }
    if e.resetPolicy != Given("deterministic") || !e.purpleRequired.Given? || !e.blind.Given? {
      return Some(InvalidField);
    }
    var variants := OrEmpty(e.variants);
    if !variants.Given? {
      return Some(InvalidVariant);
    }
    var ok := CheckVariants(variants.value);
    if !ok {
      return Some(InvalidVariant);
    }
    if e.blind.value && |variants.value| < 2 {
      return Some(TooFewVariants);
    }
    error := None;
  }

  function VariantIds(variants: seq<VariantEntry>): seq<string> {
    seq(|variants|, i requires 0 <= i < |variants| => if variants[i].id.Given? then variants[i].id.value else "")
  }

  function ScenarioOf(e: ScenarioEntry): Scenario
    requires ValidScenario(e)
  {
    Scenario(e.id.value, e.version.value, e.target.value, OrEmpty(e.prerequisites).value, e.blind.value,
      VariantIds(OrEmpty(e.variants).value))
  }

  predicate Supported<T>(file: CatalogFile<T>, schema: int) {
    file.schema == Given(schema) && (file.environment.Absent? || file.environment == Given("CYBER_RANGE"))
  }

  /** A file of another schema, or that names another environment, is no file of the range; one that names none is. */
  lemma ForeignFilesAreRefused<T>(file: CatalogFile<T>, schema: int)
    ensures Supported(file, schema) ==> file.schema.Given? && file.schema.value == schema && !file.environment.Wrong?
    ensures Supported(file, schema) && file.environment.Given? ==> file.environment.value == "CYBER_RANGE"
    ensures Supported(CatalogFile(Given(schema), Given("CYBER_RANGE"), file.entries), schema)
    ensures Supported(CatalogFile(Given(schema), Absent, file.entries), schema)
  {
  }

  // ---------------------------------------------------------------- the scenario catalog

  function Ids(scenarios: seq<Scenario>): (ids: seq<string>)
    ensures |ids| == |scenarios| && forall i :: 0 <= i < |scenarios| ==> ids[i] == scenarios[i].id
  {
    seq(|scenarios|, i requires 0 <= i < |scenarios| => scenarios[i].id)
  }

  /** What the catalog check asks of the scenarios together: unique ids, and declared prerequisites other than themselves. */
  ghost predicate CatalogAccepted(scenarios: seq<Scenario>) {
    && Distinct(Ids(scenarios))
    && forall i :: 0 <= i < |scenarios| ==>
      && IsId(scenarios[i].id)
      && scenarios[i].id !in scenarios[i].prerequisites
      && Elements(scenarios[i].prerequisites) <= Elements(Ids(scenarios))
  }

  ghost predicate Declares(entries: seq<ScenarioEntry>, scenarios: seq<Scenario>) {
    && |entries| == |scenarios|
    && forall i :: 0 <= i < |entries| ==> ValidScenario(entries[i]) && scenarios[i] == ScenarioOf(entries[i])
  }

  /** What is declared of an accepted entry; a blind scenario has at least two variants to choose from, all different. */
  lemma DeclaredAsWritten(entries: seq<ScenarioEntry>, scenarios: seq<Scenario>, i: nat)
    requires Declares(entries, scenarios) && i < |entries|
    ensures var e, s := entries[i], scenarios[i];
      && e.id == Given(s.id) && e.version == Given(s.version as int) && e.target == Given(s.target) && e.blind == Given(s.blind)
      && Given(s.prerequisites) == (if e.prerequisites.Absent? then Given([]) else e.prerequisites)
      && (s.blind ==> |s.variants| >= 2) && Distinct(s.variants)
      && forall k :: 0 <= k < |s.variants| ==> OrEmpty(e.variants).value[k].id == Given(s.variants[k])
  {
    var variants := OrEmpty(entries[i].variants).value;
    assert ValidScenario(entries[i]);
    assert forall k :: 0 <= k < |variants| ==> ValidVariant(variants[k]);
  }

  datatype CatalogResult<T> = Accepted(items: seq<T>) | Refused(error: CatalogError)

  /** The scenarios of a file are accepted exactly if the file and each manifest are valid and the scenarios fit together. */
  method ValidateCatalog(file: CatalogFile<ScenarioEntry>) returns (r: CatalogResult<Scenario>)
    ensures r.Accepted? ==> OrEmpty(file.entries).Given? && Declares(OrEmpty(file.entries).value, r.items) && CatalogAccepted(r.items)
    ensures r.Accepted? <==>
      && Supported(file, 2) && OrEmpty(file.entries).Given?
      && exists scenarios :: Declares(OrEmpty(file.entries).value, scenarios) && CatalogAccepted(scenarios)
  {
    if !Supported(file, 2) {
      return Refused(UnsupportedSchema);
    }
    if !OrEmpty(file.entries).Given? {
      return Refused(EntriesNotAList);
    }
    var entries := OrEmpty(file.entries).value;
    var ids: set<string> := {};
    var scenarios: seq<Scenario> := [];
    for i := 0 to |entries|
      invariant Declares(entries[..i], scenarios) && Distinct(Ids(scenarios)) && ids == Elements(Ids(scenarios))
    {
      var error := CheckScenario(entries[i], ids);
      if error.Some? {
        RefusedEntry(entries, i, scenarios);
        return Refused(error.value);
      }
      assert Ids(scenarios + [ScenarioOf(entries[i])]) == Ids(scenarios) + [entries[i].id.value];
      assert entries[..i + 1] == entries[..i] + [entries[i]];
      ids := ids + {entries[i].id.value};
      scenarios := scenarios + [ScenarioOf(entries[i])];
    }
    assert entries[..|entries|] == entries;
    DeclaredOnce(entries, scenarios);
    var fit := CheckPrerequisites(scenarios, ids);
    r := if fit then Accepted(scenarios) else Refused(PrerequisitesNotDeclared);
  }

  method CheckPrerequisites(scenarios: seq<Scenario>, ids: set<string>) returns (ok: bool)
    ensures ok <==> forall i :: 0 <= i < |scenarios| ==>
      scenarios[i].id !in scenarios[i].prerequisites && Elements(scenarios[i].prerequisites) <= ids
  {
    for i := 0 to |scenarios|
      invariant forall j :: 0 <= j < i ==>
        scenarios[j].id !in scenarios[j].prerequisites && Elements(scenarios[j].prerequisites) <= ids
    {
      var prerequisites := Elements(scenarios[i].prerequisites);
      if !(prerequisites <= ids) || scenarios[i].id in prerequisites {
        return false;
      }
    }
    ok := true;
  }

  /** The entries determine the scenarios. */
  lemma DeclaredOnce(entries: seq<ScenarioEntry>, scenarios: seq<Scenario>)
    requires Declares(entries, scenarios)
    ensures forall other :: Declares(entries, other) ==> other == scenarios
  {
  }

  lemma RefusedEntry(entries: seq<ScenarioEntry>, i: nat, front: seq<Scenario>)
    requires i < |entries| && Declares(entries[..i], front)
    requires !(ValidScenario(entries[i]) && entries[i].id.value !in Elements(Ids(front)))
    ensures forall scenarios :: Declares(entries, scenarios) ==> !CatalogAccepted(scenarios)
  {
    forall scenarios | Declares(entries, scenarios) ensures !CatalogAccepted(scenarios) {
      assert ValidScenario(entries[i]);
      assert forall j :: 0 <= j < i ==> entries[..i][j] == entries[j] && scenarios[j] == front[j];
      var id := entries[i].id.value;
      assert id in Elements(Ids(front));
      var j :| 0 <= j < i && Ids(front)[j] == id;
      assert Ids(scenarios)[j] == Ids(scenarios)[i];
    }
  }

  // ---------------------------------------------------------------- prerequisites

  /** Prerequisites by scenario id. */
  type Requirements = map<string, set<string>>

  function RequirementsOf(scenarios: map<string, Scenario>): Requirements {
    map id | id in scenarios :: Elements(scenarios[id].prerequisites)
  }

  /** A later scenario with the same id would replace an earlier one; accepted catalogs have none. */
  function ById(scenarios: seq<Scenario>): map<string, Scenario> {
    if scenarios == [] then map[]
    else ById(scenarios[..|scenarios| - 1])[scenarios[|scenarios| - 1].id := scenarios[|scenarios| - 1]]
  }

  lemma {:induction false} ByIdOfDistinct(scenarios: seq<Scenario>)
    requires Distinct(Ids(scenarios))
    ensures ById(scenarios).Keys == Elements(Ids(scenarios))
    ensures forall i :: 0 <= i < |scenarios| ==> scenarios[i].id in ById(scenarios) && ById(scenarios)[scenarios[i].id] == scenarios[i]
  {
    if scenarios != [] {
      var n := |scenarios| - 1;
      var front := scenarios[..n];
      assert Ids(scenarios) == Ids(front) + [scenarios[n].id];
      forall i, j | 0 <= i < j < n ensures Ids(front)[i] != Ids(front)[j] {
        assert Ids(scenarios)[i] != Ids(scenarios)[j];
      }
      ByIdOfDistinct(front);
      forall i | 0 <= i < n ensures front[i] == scenarios[i] && scenarios[i].id != scenarios[n].id {
        assert Ids(scenarios)[i] != Ids(scenarios)[n];
      }
    }
  }

  lemma AcceptedCatalogIsClosed(scenarios: seq<Scenario>)
    requires CatalogAccepted(scenarios)
    ensures RequirementsOf(ById(scenarios)).Keys == Elements(Ids(scenarios))
    ensures MissionDag.Closed(RequirementsOf(ById(scenarios)))
    ensures forall id :: id in ById(scenarios) ==> IsId(id) && ById(scenarios)[id].id == id
  {
    ByIdOfDistinct(scenarios);
    forall id | id in ById(scenarios)
      ensures Elements(ById(scenarios)[id].prerequisites) <= Elements(Ids(scenarios)) && IsId(id) && ById(scenarios)[id].id == id
    {
      assert id in Elements(Ids(scenarios));
      var i :| 0 <= i < |scenarios| && Ids(scenarios)[i] == id;
      assert ById(scenarios)[scenarios[i].id] == scenarios[i];
    }
  }

  // ---------------------------------------------------------------- campaigns

  /** A campaign is played in this order: declared scenarios, none twice, each after all its prerequisites. */
  ghost predicate CampaignAccepted(required: Requirements, c: Campaign) {
    && IsId(c.id) && c.scenarioIds != [] && Distinct(c.scenarioIds)
    && (forall i :: 0 <= i < |c.scenarioIds| ==> c.scenarioIds[i] in required)
    && (forall i :: 0 <= i < |c.scenarioIds| ==> required[c.scenarioIds[i]] <= Elements(c.scenarioIds[..i]))
  }

  /** What the entry of one campaign has to declare, besides an order that can be played. */
  ghost predicate ValidCampaign(e: CampaignEntry) {
    && e.id.Given? && e.version.Given? && e.version.value >= 1
    && ValidStrings(e.scenarioIds, false) && e.completionPolicy == Given("ordered")
    && e.resetBetween.Given? && e.blind.Given?
  }

  function CampaignOf(e: CampaignEntry): Campaign
    requires ValidCampaign(e)
  {
    Campaign(e.id.value, e.version.value, e.scenarioIds.value, e.resetBetween.value, e.blind.value)
  }

  method CheckCampaign(required: Requirements, e: CampaignEntry, seen: set<string>) returns (error: Option<CatalogError>)
    ensures error == None <==> ValidCampaign(e) && CampaignAccepted(required, CampaignOf(e)) && e.id.value !in seen
  {
    if !e.id.Given? || !IsId(e.id.value) || e.id.value in seen {
      return Some(InvalidOrDuplicateId);
    }
    if !e.version.Given? || e.version.value < 1 {
      return Some(InvalidField);
    }
    if !ValidStrings(e.scenarioIds, false) {
      return Some(UndeclaredScenario);
    }
    var ordered := e.scenarioIds.value;
    if !(Elements(ordered) <= required.Keys) {
      assert exists x :: x in Elements(ordered) && x !in required;
      return Some(UndeclaredScenario);
    }
    MissionDag.DistinctCount(ordered);
    if |Elements(ordered)| != |ordered| {
      return Some(RepeatedScenario);
    }
    if e.completionPolicy != Given("ordered") || !e.resetBetween.Given? || !e.blind.Given? {
      return Some(InvalidField);
    }
    assert forall i :: 0 <= i < |ordered| ==> ordered[i] in Elements(ordered);
    var playable := CheckOrder(required, ordered);
    error := if playable then None else Some(OrderViolatesPrerequisites);
  }

  method CheckOrder(required: Requirements, ordered: seq<string>) returns (ok: bool)
    requires forall i :: 0 <= i < |ordered| ==> ordered[i] in required
    ensures ok <==> forall i :: 0 <= i < |ordered| ==> required[ordered[i]] <= Elements(ordered[..i])
  {
    var completed: set<string> := {};
    for i := 0 to |ordered|
      invariant completed == Elements(ordered[..i])
      invariant forall j :: 0 <= j < i ==> required[ordered[j]] <= Elements(ordered[..j])
    {
      if !(required[ordered[i]] <= completed) {
        return false;
      }
      assert ordered[..i + 1] == ordered[..i] + [ordered[i]];
      completed := completed + {ordered[i]};
    }
    ok := true;
  }

  ghost predicate CampaignsAccepted(required: Requirements, campaigns: seq<Campaign>) {
    && (forall i, j :: 0 <= i < j < |campaigns| ==> campaigns[i].id != campaigns[j].id)
    && forall i :: 0 <= i < |campaigns| ==> CampaignAccepted(required, campaigns[i])
  }

  ghost predicate DeclaresCampaigns(entries: seq<CampaignEntry>, campaigns: seq<Campaign>) {
    && |entries| == |campaigns|
    && forall i :: 0 <= i < |entries| ==> ValidCampaign(entries[i]) && campaigns[i] == CampaignOf(entries[i])
  }

  method ValidateCampaigns(required: Requirements, file: CatalogFile<CampaignEntry>) returns (r: CatalogResult<Campaign>)
    ensures r.Accepted? ==> OrEmpty(file.entries).Given? && DeclaresCampaigns(OrEmpty(file.entries).value, r.items) && CampaignsAccepted(required, r.items)
    ensures r.Accepted? <==>
      && Supported(file, 1) && OrEmpty(file.entries).Given?
      && exists campaigns :: DeclaresCampaigns(OrEmpty(file.entries).value, campaigns) && CampaignsAccepted(required, campaigns)
  {
    if !Supported(file, 1) {
      return Refused(UnsupportedSchema);
    }
    if !OrEmpty(file.entries).Given? {
      return Refused(EntriesNotAList);
    }
    var entries := OrEmpty(file.entries).value;
    var seen: set<string> := {};
    var campaigns: seq<Campaign> := [];
    for i := 0 to |entries|
      invariant DeclaresCampaigns(entries[..i], campaigns) && CampaignsAccepted(required, campaigns)
      invariant forall id :: id in seen <==> exists j :: 0 <= j < |campaigns| && campaigns[j].id == id
    {
      var error := CheckCampaign(required, entries[i], seen);
      if error.Some? {
        RefusedCampaign(required, entries, i, campaigns);
        return Refused(error.value);
      }
      var c := CampaignOf(entries[i]);
      assert (campaigns + [c])[|campaigns|] == c && forall j :: 0 <= j < |campaigns| ==> (campaigns + [c])[j] == campaigns[j];
      assert entries[..i + 1] == entries[..i] + [entries[i]];
      seen := seen + {c.id};
      campaigns := campaigns + [c];
    }
    assert entries[..|entries|] == entries;
    r := Accepted(campaigns);
  }

  lemma RefusedCampaign(required: Requirements, entries: seq<CampaignEntry>, i: nat, front: seq<Campaign>)
    requires i < |entries| && DeclaresCampaigns(entries[..i], front)
    requires !(ValidCampaign(entries[i]) && CampaignAccepted(required, CampaignOf(entries[i]))
      && forall j :: 0 <= j < |front| ==> front[j].id != entries[i].id.value)
    ensures forall campaigns :: DeclaresCampaigns(entries, campaigns) ==> !CampaignsAccepted(required, campaigns)
  {
    forall campaigns: seq<Campaign> | DeclaresCampaigns(entries, campaigns) ensures !CampaignsAccepted(required, campaigns) {
      assert ValidCampaign(entries[i]) && campaigns[i] == CampaignOf(entries[i]);
      if CampaignAccepted(required, campaigns[i]) {
        assert forall j :: 0 <= j < i ==> entries[..i][j] == entries[j] && campaigns[j] == front[j];
        var j :| 0 <= j < i && front[j].id == entries[i].id.value;
        assert campaigns[j].id == campaigns[i].id;
      }
    }
  }

  // ---------------------------------------------------------------- cycles

  /** An accepted campaign is a topological order of the prerequisites of its scenarios. */
  lemma CampaignIsTopological(required: Requirements, c: Campaign)
    requires CampaignAccepted(required, c)
    ensures MissionDag.Topological(required, c.scenarioIds)
  {
  }

  /**
   * Whatever a scenario of an accepted campaign needs, directly or through others, stands earlier in
   * the campaign; so no scenario of it lies on a cycle of prerequisites.
   */
  lemma CampaignIsPrerequisiteClosed(required: Requirements, c: Campaign, chain: seq<string>, at: nat) returns (end: nat)
    requires CampaignAccepted(required, c)
    requires MissionDag.IsPath(required, chain) && chain != [] && at < |c.scenarioIds| && chain[0] == c.scenarioIds[at]
    ensures end <= at && c.scenarioIds[end] == chain[|chain| - 1]
    ensures |chain| >= 2 ==> end < at && chain[|chain| - 1] != chain[0]
  {
    CampaignIsTopological(required, c);
    end := MissionDag.PathDescends(required, c.scenarioIds, chain, at);
  }

  lemma NoCycleInCampaign(required: Requirements, c: Campaign, chain: seq<string>)
    requires CampaignAccepted(required, c) && MissionDag.IsCycle(required, chain)
    ensures chain[0] !in c.scenarioIds
  {
    if chain[0] in c.scenarioIds {
      var at :| 0 <= at < |c.scenarioIds| && c.scenarioIds[at] == chain[0];
      var end := CampaignIsPrerequisiteClosed(required, c, chain, at);
    }
  }

  /** A campaign over all scenarios in the given order. */
  function Grand(order: seq<string>): Campaign {
    Campaign("all", 1, order, false, false)
  }

  /** An accepted catalog has no cycle of prerequisites exactly when some order of all its scenarios passes the campaign check. */
  lemma CatalogIsAcyclicExactly(scenarios: seq<Scenario>)
    requires CatalogAccepted(scenarios) && scenarios != []
    ensures var required := RequirementsOf(ById(scenarios));
      MissionDag.Acyclic(required)
      <==> exists order :: CampaignAccepted(required, Grand(order)) && Elements(order) == required.Keys
  {
    var required := RequirementsOf(ById(scenarios));
    AcceptedCatalogIsClosed(scenarios);
    if MissionDag.Acyclic(required) {
      var order := MissionDag.CompleteOrder(required, []);
      assert Ids(scenarios)[0] in Elements(Ids(scenarios));
      assert order != [];
      assert CampaignAccepted(required, Grand(order));
    }
    if order :| CampaignAccepted(required, Grand(order)) && Elements(order) == required.Keys {
      CampaignIsTopological(required, Grand(order));
      MissionDag.TopologicalOrderMeansAcyclic(required, order);
    }
  }

  lemma ByIdOfTwo(a: Scenario, b: Scenario, both: seq<Scenario>)
    requires both == [a, b]
    ensures ById(both) == map[a.id := a][b.id := b]
  {
    var one := both[..1];
    assert one == [a] && one[..0] == [];
    assert ById(one) == map[a.id := a];
  }

  lemma OfTwo(x: string, y: string)
    ensures Elements([x]) == {x} && Elements([x, y]) == {x, y}
  {
    assert [x, y][0] == x && [x, y][1] == y && [x][0] == x;
  }

  /** Two scenarios that need each other. */
  function Mutual(id: string, other: string): Scenario {
    Scenario(id, 1, "t", [other], false, [])
  }

  lemma MutualAccepted(x: string, y: string, both: seq<Scenario>)
    requires IsId(x) && IsId(y) && x != y && both == [Mutual(x, y), Mutual(y, x)]
    ensures CatalogAccepted(both)
  {
    assert Ids(both) == [x, y];
    OfTwo(x, y);
    OfTwo(y, x);
  }

  lemma MutualRequirements(x: string, y: string, both: seq<Scenario>)
    requires x != y && both == [Mutual(x, y), Mutual(y, x)]
    ensures RequirementsOf(ById(both)) == map[x := {y}, y := {x}]
  {
    ByIdOfTwo(Mutual(x, y), Mutual(y, x), both);
    OfTwo(x, y);
    OfTwo(y, x);
  }

  /** The catalog check alone lets a cycle through, but no accepted campaign can contain it. */
  lemma CatalogAloneAllowsCycles(x: string, y: string, c: Campaign)
    requires IsId(x) && IsId(y) && x != y
    ensures var catalog := [Mutual(x, y), Mutual(y, x)];
      var required := RequirementsOf(ById(catalog));
      && CatalogAccepted(catalog)
      && MissionDag.IsCycle(required, [x, y, x])
      && (CampaignAccepted(required, c) ==> x !in c.scenarioIds)
  {
    var catalog := [Mutual(x, y), Mutual(y, x)];
    MutualAccepted(x, y, catalog);
    MutualRequirements(x, y, catalog);
    if CampaignAccepted(RequirementsOf(ById(catalog)), c) {
      NoCycleInCampaign(RequirementsOf(ById(catalog)), c, [x, y, x]);
    }
  }
}
