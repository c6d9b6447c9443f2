/**
 * The hysteresis rules of the diagnostics worker: three known failures in a row open an episode of a
 * resource, two known successes in a row close it, and unknown results change neither count.
 */
module DiagnosticRules {
  import opened Options

  datatype Health = Healthy | Unhealthy | Unknown

  datatype RuleRow = RuleRow(
    failures: nat, successes: nat, open: bool, episode: Option<string>, observedAt: int, validUntil: int, status: Health)

  datatype Transition = Opened | Recovered

  datatype Incident = Incident(resource: string, transition: Transition, episode: string, observedAt: int)

  /** One probe result; `drawn` is the identifier that would be drawn for a new episode. */
  datatype Probe = Probe(resource: string, health: Health, now: int, drawn: string)

  type Rules = map<string, RuleRow>

  const VALID_SECONDS := 45

  function Blank(): RuleRow {
    RuleRow(0, 0, false, None, 0, 0, Unknown)
  }

  function RowOf(rules: Rules, resource: string): RuleRow {
    if resource in rules then rules[resource] else Blank()
  }

  function Observed(row: RuleRow, p: Probe): (RuleRow, Option<Incident>) {
    var r := row.(observedAt := p.now, validUntil := p.now + VALID_SECONDS, status := p.health);
    if p.health == Unknown then (r, None)
    else
      var counted := r.(
        failures := if p.health == Healthy then 0 else r.failures + 1,
        successes := if p.health == Healthy then r.successes + 1 else 0);
      if !counted.open && counted.failures >= 3 then
        (counted.(open := true, episode := Some(p.drawn)), Some(Incident(p.resource, Opened, p.drawn, p.now)))
      else if counted.open && counted.successes >= 2 then
        var episode := if r.episode.Some? && r.episode.value != "" then r.episode.value else p.drawn;
        (counted.(open := false, episode := None), Some(Incident(p.resource, Recovered, episode, p.now)))
      else (counted, None)
  }

  class DiagnosticRuleSet {
    var states: Rules

    constructor (saved: Rules)
      ensures states == saved
    {
      states := saved;
    }

    method Observe(p: Probe) returns (incident: Option<Incident>)
      modifies this
      ensures (states, incident) ==
        (old(states)[p.resource := Observed(RowOf(old(states), p.resource), p).0], Observed(RowOf(old(states), p.resource), p).1)
    {
      var row := if p.resource in states then states[p.resource] else Blank();
      row := row.(observedAt := p.now, validUntil := p.now + VALID_SECONDS, status := p.health);
      states := states[p.resource := row];
      if p.health == Unknown {
        assert states == old(states)[p.resource := row];
        return None;
      }
      var healthy := p.health == Healthy;
      row := row.(failures := if healthy then 0 else row.failures + 1, successes := if healthy then row.successes + 1 else 0);
      incident := None;
      if !row.open && row.failures >= 3 {
        row := row.(open := true, episode := Some(p.drawn));
        incident := Some(Incident(p.resource, Opened, p.drawn, p.now));
      } else if row.open && row.successes >= 2 {
        var episode := if row.episode.Some? && row.episode.value != "" then row.episode.value else p.drawn;
        row := row.(open := false, episode := None);
        incident := Some(Incident(p.resource, Recovered, episode, p.now));
      }
      states := states[p.resource := row];
      assert states == old(states)[p.resource := row];
    }

    /** An observation counts for forty-five seconds; a resource without a current one is unknown. */
    method Current(resource: string, now: int) returns (status: Health)
      ensures status == CurrentOf(states, resource, now)
    {
      if resource !in states || states[resource].validUntil <= now {
        return Unknown;
      }
      status := states[resource].status;
    }
  }

  // ---------------------------------------------------------------- histories

  function Replay(probes: seq<Probe>): (Rules, seq<Incident>) {
    if probes == [] then (map[], [])
    else
      var p := probes[|probes| - 1];
      var (rules, incidents) := Replay(probes[..|probes| - 1]);
      var (row, incident) := Observed(RowOf(rules, p.resource), p);
      (rules[p.resource := row], incidents + if incident.Some? then [incident.value] else [])
  }

  /** The known results of one resource, true for healthy. */
  function Known(probes: seq<Probe>, resource: string): seq<bool> {
    if probes == [] then []
    else
      var p := probes[|probes| - 1];
      Known(probes[..|probes| - 1], resource)
        + if p.resource == resource && p.health != Unknown then [p.health == Healthy] else []
  }

  function LastProbe(probes: seq<Probe>, resource: string): Option<Probe> {
    if probes == [] then None
    else if probes[|probes| - 1].resource == resource then Some(probes[|probes| - 1])
    else LastProbe(probes[..|probes| - 1], resource)
  }

  /** What a row says now: the last status while it is valid. */
  function CurrentOf(rules: Rules, resource: string, now: int): Health {
    if resource in rules && now < rules[resource].validUntil then rules[resource].status else Unknown
  }

  /** On every history a resource's current status is what its last probe found, for forty-five seconds, and otherwise unknown. */
  lemma {:induction false} CurrentExactly(probes: seq<Probe>, resource: string, now: int)
    ensures CurrentOf(Replay(probes).0, resource, now) ==
      match LastProbe(probes, resource)
      case Some(p) => if now < p.now + 45 then p.health else Unknown
      case None => Unknown
    ensures match LastProbe(probes, resource)
      case Some(p) => resource in Replay(probes).0 && Replay(probes).0[resource].observedAt == p.now
      case None => resource !in Replay(probes).0
  {
    if probes != [] {
      CurrentExactly(probes[..|probes| - 1], resource, now);
    }
  }

  /** An incident is about the probe that raised it. */
  lemma IncidentsCarryTheirProbe(row: RuleRow, p: Probe)
    requires Observed(row, p).1.Some?
    ensures var incident := Observed(row, p).1.value;
      && incident.resource == p.resource && incident.observedAt == p.now && p.health != Unknown
      && (incident.transition == Opened <==> p.health == Unhealthy)
  {
  }

  // ---------------------------------------------------------------- the declarative specification

  ghost predicate ThreeFailuresEnd(known: seq<bool>, i: int) {
    2 <= i < |known| && !known[i] && !known[i - 1] && !known[i - 2]
  }

  ghost predicate TwoSuccessesEnd(known: seq<bool>, j: int) {
    1 <= j < |known| && known[j] && known[j - 1]
  }

  /** The latest three failures in a row ended after the latest two successes in a row. */
  ghost predicate ShouldBeOpen(known: seq<bool>) {
    exists i :: ThreeFailuresEnd(known, i) && forall j :: i < j ==> !TwoSuccessesEnd(known, j)
  }

  /** Length of the run of results equal to `value` at the end. */
  function TrailingRun(known: seq<bool>, value: bool): nat {
    if known == [] || known[|known| - 1] != value then 0 else 1 + TrailingRun(known[..|known| - 1], value)
  }

  lemma TrailingMeansEnd(known: seq<bool>)
    ensures TrailingRun(known, false) >= 3 <==> ThreeFailuresEnd(known, |known| - 1)
    ensures TrailingRun(known, true) >= 2 <==> TwoSuccessesEnd(known, |known| - 1)
  {
    var n := |known|;
    if n >= 1 {
      var one := known[..n - 1];
      if n >= 2 {
        var two := one[..n - 2];
        assert one[n - 2] == known[n - 2];
        if n >= 3 {
          assert two[n - 3] == known[n - 3];
        }
      }
    }
  }

  lemma EarlierEndsStay(known: seq<bool>, last: bool, i: int)
    requires i < |known|
    ensures ThreeFailuresEnd(known + [last], i) <==> ThreeFailuresEnd(known, i)
    ensures TwoSuccessesEnd(known + [last], i) <==> TwoSuccessesEnd(known, i)
  {
  }

  lemma OpenBefore(known: seq<bool>, last: bool)
    requires ShouldBeOpen(known + [last]) && !ThreeFailuresEnd(known + [last], |known|)
    ensures ShouldBeOpen(known) && !TwoSuccessesEnd(known + [last], |known|)
  {
    var longer, n := known + [last], |known|;
    var i :| ThreeFailuresEnd(longer, i) && forall j :: i < j ==> !TwoSuccessesEnd(longer, j);
    EarlierEndsStay(known, last, i);
    forall j | i < j ensures !TwoSuccessesEnd(known, j) {
      if j < n {
        EarlierEndsStay(known, last, j);
      }
    }
  }

  lemma OpenStays(known: seq<bool>, last: bool)
    requires ShouldBeOpen(known) && !TwoSuccessesEnd(known + [last], |known|)
    ensures ShouldBeOpen(known + [last])
  {
    var longer, n := known + [last], |known|;
    var i :| ThreeFailuresEnd(known, i) && forall j :: i < j ==> !TwoSuccessesEnd(known, j);
    EarlierEndsStay(known, last, i);
    forall j | i < j ensures !TwoSuccessesEnd(longer, j) {
      if j < n {
        EarlierEndsStay(known, last, j);
      }
    }
  }

  /** How the specification moves with one more known result. */
  lemma SpecificationStep(known: seq<bool>, last: bool)
    ensures var longer := known + [last];
      ShouldBeOpen(longer) <==>
        TrailingRun(longer, false) >= 3 || (ShouldBeOpen(known) && TrailingRun(longer, true) < 2)
  {
    var longer, n := known + [last], |known|;
    TrailingMeansEnd(longer);
    if ThreeFailuresEnd(longer, n) {
      assert forall j :: n < j ==> !TwoSuccessesEnd(longer, j);
    } else {
      if ShouldBeOpen(longer) {
        OpenBefore(known, last);
      }
      if ShouldBeOpen(known) && !TwoSuccessesEnd(longer, n) {
        OpenStays(known, last);
      }
    }
  }

  /** One probe of the resource itself, against what the specification says before it. */
  lemma RowMeetsSpecification(row: RuleRow, p: Probe, known: seq<bool>)
    requires p.health != Unknown
    requires row.failures == TrailingRun(known, false) && row.successes == TrailingRun(known, true)
    requires row.open <==> ShouldBeOpen(known)
    ensures var after := Observed(row, p).0;
      var longer := known + [p.health == Healthy];
      && after.failures == TrailingRun(longer, false) && after.successes == TrailingRun(longer, true)
      && (after.open <==> ShouldBeOpen(longer))
  {
    var last := p.health == Healthy;
    assert (known + [last])[..|known|] == known;
    SpecificationStep(known, last);
  }

  /** On every history of probes of any resources, the machine is open exactly when the specification says so, and its counts are the trailing runs. */
  lemma {:induction false} MachineMeetsSpecification(probes: seq<Probe>, resource: string)
    ensures var row := RowOf(Replay(probes).0, resource);
      var known := Known(probes, resource);
      && row.failures == TrailingRun(known, false) && row.successes == TrailingRun(known, true)
      && (row.open <==> ShouldBeOpen(known))
  {
    if probes == [] {
      assert forall i :: !ThreeFailuresEnd([], i);
    } else {
      var n := |probes| - 1;
      var p := probes[n];
      MachineMeetsSpecification(probes[..n], resource);
      var before, known := Known(probes[..n], resource), Known(probes, resource);
      if p.resource == resource && p.health != Unknown {
        assert known == before + [p.health == Healthy];
        RowMeetsSpecification(RowOf(Replay(probes[..n]).0, resource), p, before);
      } else {
        assert known == before;
      }
    }
  }

  // ---------------------------------------------------------------- episodes

  function IncidentsOf(incidents: seq<Incident>, resource: string): seq<Incident> {
    if incidents == [] then []
    else
      IncidentsOf(incidents[..|incidents| - 1], resource)
        + if incidents[|incidents| - 1].resource == resource then [incidents[|incidents| - 1]] else []
  }

  /** Openings and recoveries take turns, and each recovery names the episode its opening named. */
  ghost predicate Alternate(incidents: seq<Incident>) {
    forall i :: 0 <= i < |incidents| ==>
      && (incidents[i].transition == Opened <==> i % 2 == 0)
      && (i % 2 == 1 ==> incidents[i].episode == incidents[i - 1].episode)
  }

  lemma IncidentsOfSnoc(incidents: seq<Incident>, incident: Incident, resource: string)
    ensures IncidentsOf(incidents + [incident], resource)
      == IncidentsOf(incidents, resource) + if incident.resource == resource then [incident] else []
  {
    assert (incidents + [incident])[..|incidents|] == incidents;
  }

  lemma AlternateSnoc(incidents: seq<Incident>, incident: Incident)
    requires Alternate(incidents)
    requires incident.transition == Opened <==> |incidents| % 2 == 0
    requires |incidents| % 2 == 1 ==> incident.episode == incidents[|incidents| - 1].episode
    ensures Alternate(incidents + [incident])
  {
    var longer := incidents + [incident];
    forall i | 0 <= i < |longer|
      ensures longer[i].transition == Opened <==> i % 2 == 0
      ensures i % 2 == 1 ==> longer[i].episode == longer[i - 1].episode
    {
      if i < |incidents| {
        assert longer[i] == incidents[i];
        assert i % 2 == 1 ==> longer[i - 1] == incidents[i - 1];
      }
    }
  }

  /** A row agrees with the incidents its resource has had. */
  ghost predicate EpisodeSound(row: RuleRow, incidents: seq<Incident>) {
    && Alternate(incidents)
    && (row.open <==> |incidents| % 2 == 1)
    && (row.open ==> row.episode == Some(incidents[|incidents| - 1].episode) && row.episode.value != "")
  }

  function Noted(incidents: seq<Incident>, incident: Option<Incident>): seq<Incident> {
    incidents + if incident.Some? then [incident.value] else []
  }

  lemma ObservedKeepsEpisodes(row: RuleRow, incidents: seq<Incident>, p: Probe)
    requires EpisodeSound(row, incidents) && p.drawn != ""
    ensures var (row', incident) := Observed(row, p);
      EpisodeSound(row', Noted(incidents, incident))
  {
    var (row', incident) := Observed(row, p);
    if incident.Some? {
      AlternateSnoc(incidents, incident.value);
      assert (|incidents| + 1) % 2 == 1 <==> |incidents| % 2 == 0;
    } else {
      assert incidents + [] == incidents;
    }
  }

  lemma IncidentsOfNoted(all: seq<Incident>, incident: Option<Incident>, resource: string)
    ensures IncidentsOf(Noted(all, incident), resource) ==
      if incident.Some? && incident.value.resource == resource then Noted(IncidentsOf(all, resource), incident)
      else IncidentsOf(all, resource)
  {
    if incident.Some? {
      IncidentsOfSnoc(all, incident.value, resource);
      assert IncidentsOf(all, resource) + [] == IncidentsOf(all, resource);
    } else {
      assert all + [] == all;
    }
  }

  /** On every history each resource's episodes open and close in turn, and an open row carries the episode of the last opening. */
  lemma {:induction false} EpisodesAlternate(probes: seq<Probe>, resource: string)
    requires forall i :: 0 <= i < |probes| ==> probes[i].drawn != ""
    ensures EpisodeSound(RowOf(Replay(probes).0, resource), IncidentsOf(Replay(probes).1, resource))
  {
    if probes != [] {
      var n := |probes| - 1;
      var p := probes[n];
      EpisodesAlternate(probes[..n], resource);
      var (rules, all) := Replay(probes[..n]);
      var (row, incident) := Observed(RowOf(rules, p.resource), p);
      assert Replay(probes) == (rules[p.resource := row], Noted(all, incident));
      IncidentsOfNoted(all, incident, resource);
      if p.resource == resource {
        ObservedKeepsEpisodes(RowOf(rules, resource), IncidentsOf(all, resource), p);
        assert incident == None ==> IncidentsOf(all, resource) + [] == IncidentsOf(all, resource);
      }
    }
  }
}
