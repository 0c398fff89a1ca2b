/**
 What a settlement is worth: the surviving resources install, and the statuses written for it, read back as
 standings, settle the same way again.
 */
module ClaimOutcomes {
  import opened Claims
  import opened Results
  import opened Surface

  // Safety.

  /** What compiling and checking a projection on its own has established of its resources. */
  ghost predicate Servable(resources: seq<Resource>) {
    !Clash(resources) && forall i :: 0 <= i < |resources| ==> resources[i].plural != "" && '/' !in resources[i].plural
  }

  /** The resources of `order`, one projection after the other. */
  function Concat(order: seq<string>, surviving: map<string, seq<Resource>>): seq<Resource>
    requires forall n :: n in order ==> n in surviving
  {
    if order == [] then []
    else Concat(order[..|order| - 1], surviving) + surviving[order[|order| - 1]]
  }

  lemma {:induction false} ConcatMember(order: seq<string>, surviving: map<string, seq<Resource>>, i: nat)
    returns (m: nat)
    requires (forall n :: n in order ==> n in surviving) && i < |Concat(order, surviving)|
    ensures m < |order| && Concat(order, surviving)[i] in surviving[order[m]]
  {
    var k := |order| - 1;
    var front := Concat(order[..k], surviving);
    if i < |front| {
      m := ConcatMember(order[..k], surviving, i);
    } else {
      m := k;
      assert Concat(order, surviving)[i] == surviving[order[k]][i - |front|];
    }
  }

  lemma PluralClaimed(resources: seq<Resource>, res: Resource)
    requires res in resources && res.plural != ""
    ensures Claim(res.group, ResourceName, res.plural) in ClaimSet(resources)
  {
  }

  /** One plural cannot be taken by the resource of another winner. */
  lemma WinnersApart(surviving: map<string, seq<Resource>>, field: Field, winners: set<string>,
                     m: string, n: string, a: Resource, b: Resource)
    requires Settled(WantsOf(surviving), field, winners) && m in winners && n in winners && m != n
    requires Servable(surviving[m]) && Servable(surviving[n]) && a in surviving[m] && b in surviving[n]
    ensures !Taken(a, b)
  {
    var wants := WantsOf(surviving);
    assert !Conflict(wants, m, n);
    PluralClaimed(surviving[m], a);
    PluralClaimed(surviving[n], b);
    assert Claim(a.group, ResourceName, a.plural) in wants[m];
    assert Claim(b.group, ResourceName, b.plural) in wants[n];
    Subresource(a.plural, "/status");
    Subresource(a.plural, "/scale");
  }

  lemma Subresource(plural: string, suffix: string)
    requires suffix == "/status" || suffix == "/scale"
    ensures '/' in plural + suffix
  {
  }

  /** The router never refuses the winners, in whatever order their resources are handed to it. */
  lemma {:induction false} WinnersInstall(surviving: map<string, seq<Resource>>, field: Field, winners: set<string>,
                                          order: seq<string>)
    requires Settled(WantsOf(surviving), field, winners)
    requires forall n :: n in order ==> n in winners && Servable(surviving[n])
    requires forall i, j :: 0 <= i < j < |order| ==> order[i] != order[j]
    ensures !Clash(Concat(order, surviving))
  {
    hide Taken, Clash, Conflict;
    if order == [] {
      NoClash();
    } else {
      var k := |order| - 1;
      var front := Concat(order[..k], surviving);
      var last := surviving[order[k]];
      WinnersInstall(surviving, field, winners, order[..k]);
      forall i, j | 0 <= i < |front| && 0 <= j < |last| ensures !Taken(front[i], last[j]) {
        var m := ConcatMember(order[..k], surviving, i);
        WinnersApart(surviving, field, winners, order[m], order[k], front[i], last[j]);
      }
      ClashConcat(front, last);
    }
  }

  lemma NoClash()
    ensures !Clash([])
  {
  }

  lemma ClashConcat(front: seq<Resource>, last: seq<Resource>)
    requires !Clash(front) && !Clash(last)
    requires forall i, j :: 0 <= i < |front| && 0 <= j < |last| ==> !Taken(front[i], last[j])
    ensures !Clash(front + last)
  {
  }

  // Status feedback.

  datatype Failure = NameReserved | GroupNotAllowed | ClaimLost(loss: Loss) | CompilationFailed

  function FailureReason(failure: Failure): string {
    match failure
    case NameReserved => "NameReservedByFile"
    case GroupNotAllowed => "GroupNotAllowed"
    case ClaimLost(_) => "ResourceClaimed"
    case CompilationFailed => "CompilationFailed"
  }

  datatype Registration = Routed | Pending | ServedElsewhere | NotRouted

  /** The versions a projection serves its plural at, the first being its primary one. */
  datatype Paths = Paths(group: string, version: string, plural: string, extras: seq<(string, bool)>)

  function ServedPaths(p: Paths): (paths: seq<string>)
    ensures paths != []
  {
    [Path(p, p.version)] + ExtraPaths(p, p.extras)
  }

  function Path(p: Paths, version: string): string {
    "/apis/" + p.group + "/" + version + "/" + p.plural
  }

  function ExtraPaths(p: Paths, extras: seq<(string, bool)>): seq<string> {
    if extras == [] then []
    else (if extras[0].1 then [Path(p, extras[0].0)] else []) + ExtraPaths(p, extras[1..])
  }

  /** The part of a status that standings are read from; `ready` is the reason of the Ready condition. */
  datatype Status = Status(observedGeneration: int, servedPaths: seq<string>, ready: Option<string>)

  /** What a sync reports of one projection. */
  datatype Report = Report(generation: int, paths: Paths, failure: Option<Failure>, registration: Registration,
                           servingPrevious: bool)

  /** `updateStatus`: the status written for a report. */
  function Written(report: Report): Status {
    if report.failure.None? then
      Status(report.generation, ServedPaths(report.paths),
             Some(if report.registration.Routed? || report.registration.Pending? then "Serving" else "NotRegistered"))
    else if report.servingPrevious then Status(report.generation, [], Some("ServingPreviousConfiguration"))
    else Status(report.generation, [], Some(FailureReason(report.failure.value)))
  }

  /** `standingOf`: only a status written for the generation in hand counts. */
  function StandingOf(generation: int, status: Status): Standing {
    if status.observedGeneration != generation then Unknown
    else if status.servedPaths != [] then Serving
    else if status.ready == Some("ServingPreviousConfiguration") then Serving
    else if status.ready == Some("ResourceClaimed") then Lost
    else Unknown
  }

  /** A written status reads back as what happened, and as nothing once the projection has been edited. */
  lemma WrittenReadsBack(report: Report, generation: int)
    ensures var standing := StandingOf(generation, Written(report));
      && (generation != report.generation ==> standing == Unknown)
      && (generation == report.generation ==>
            (standing == Serving <==> report.failure.None? || report.servingPrevious)
            && (standing == Lost <==>
                  report.failure.Some? && report.failure.value.ClaimLost? && !report.servingPrevious))
  {
  }

  /** What a sync reports after settling: winners serve, afresh or as before, and losers have lost a claim. */
  ghost predicate Reports(wants: Wants, winners: set<string>, reports: map<string, Report>) {
    && reports.Keys == wants.Keys
    && (forall n :: n in winners && n in reports ==> reports[n].failure.None? || reports[n].servingPrevious)
    && (forall n :: n in reports && n !in winners ==>
          reports[n].failure.Some? && reports[n].failure.value.ClaimLost? && !reports[n].servingPrevious)
  }

  lemma MovesKeepSettlement(wants: Wants, before: Field, after: Field, winners: set<string>)
    requires Settled(wants, before, winners) && after.created == before.created
    requires forall n :: n in winners ==> after.StandingOfName(n).Rank() <= before.StandingOfName(n).Rank()
    requires forall n :: n in wants && n !in winners ==>
               after.StandingOfName(n).Rank() >= before.StandingOfName(n).Rank()
    ensures Settled(wants, after, winners)
  {
  }

  /** Whichever of the resulting statuses are written back, the same projections win and the same lose. */
  lemma StatusFeedback(wants: Wants, before: Field, after: Field, winners: set<string>, reports: map<string, Report>,
                       winners': set<string>)
    requires Settled(wants, before, winners) && Reports(wants, winners, reports)
    requires after.created == before.created
    requires forall n :: n in wants ==>
               || after.StandingOfName(n) == before.StandingOfName(n)
               || after.StandingOfName(n) == StandingOf(reports[n].generation, Written(reports[n]))
    requires Settled(wants, after, winners')
    ensures winners' == winners
  {
    forall n | n in wants
      ensures n in winners ==> after.StandingOfName(n).Rank() <= before.StandingOfName(n).Rank()
      ensures n !in winners ==> after.StandingOfName(n).Rank() >= before.StandingOfName(n).Rank()
    {
      WrittenReadsBack(reports[n], reports[n].generation);
    }
    MovesKeepSettlement(wants, before, after, winners);
    SettledUnique(wants, after, winners, winners');
  }

  /** With every loser marked, editing winners without changing their claims hands nothing over. */
  lemma EditsKeepLosers(wants: Wants, before: Field, after: Field, winners: set<string>, reports: map<string, Report>,
                        generations: map<string, int>, winners': set<string>)
    requires Settled(wants, before, winners) && Reports(wants, winners, reports)
    requires generations.Keys == wants.Keys && after.created == before.created
    requires forall n :: n in wants && n !in winners ==> generations[n] == reports[n].generation
    requires forall n :: n in wants ==> after.StandingOfName(n) == StandingOf(generations[n], Written(reports[n]))
    requires Settled(wants, after, winners')
    ensures winners' == winners
  {
    forall n | n in wants
      ensures n in winners ==> after.StandingOfName(n) != Lost
      ensures n !in winners ==> after.StandingOfName(n) == Lost
    {
      hide Settled, Written;
      WrittenReadsBack(reports[n], generations[n]);
    }
    MarkedLosersLose(wants, before, after, winners);
    SettledUnique(wants, after, winners, winners');
  }

  lemma MarkedLosersLose(wants: Wants, before: Field, after: Field, winners: set<string>)
    requires Settled(wants, before, winners)
    requires forall n :: n in wants ==> (n in winners <==> after.StandingOfName(n) != Lost)
    ensures Settled(wants, after, winners)
  {
  }

  /**
   A winner that is edited keeps its place from a loser exactly when the loser is marked, or ranks behind it by age
   and name: one that is not marked yet and is older takes over.
   */
  lemma UnmarkedLoserTakesOver(loser: string, winner: string, wants: Wants, c: Claim, created: map<string, int>,
                               marked: Standing, report: Report, edited: int)
    requires loser != winner && wants.Keys == {loser, winner} && c in wants[loser] && c in wants[winner]
    requires marked != Serving && (report.failure.None? || report.servingPrevious) && edited != report.generation
    ensures var standing := StandingOf(report.generation, Written(report));
      Settled(wants, Field(created, map[loser := marked, winner := standing]), {winner})
    ensures var after := Field(created, map[loser := marked, winner := StandingOf(edited, Written(report))]);
      && (Settled(wants, after, {loser}) <==> marked == Unknown && after.Before(loser, winner))
      && (Settled(wants, after, {winner}) <==> !(marked == Unknown && after.Before(loser, winner)))
  {
    WrittenReadsBack(report, report.generation);
    WrittenReadsBack(report, edited);
    hide Written, StandingOf;
    var after := Field(created, map[loser := marked, winner := StandingOf(edited, Written(report))]);
    assert Conflict(wants, loser, winner) && Conflict(wants, winner, loser);
    BeforeTotal(after, loser, winner);
    assert loser in wants.Keys && winner in wants.Keys;
  }
}
