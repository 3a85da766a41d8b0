/** The sales pipeline: an opportunity's stage, probability, status and close
    bookkeeping (entity/Opportunity.java, enums/OpportunityStage.java). */
module Opportunities {
  import opened Base

  /** OpportunityStage, constructors in declaration order. */
  datatype Stage =
    | Prospecting
    | Qualification
    | NeedsAnalysis
    | Proposal
    | Negotiation
    | ClosedWon
    | ClosedLost

  /** OpportunityStatus. */
  datatype Status = Open | Won | Lost

  /** OpportunityStage.values(): every stage, in declaration order. */
  const Stages: seq<Stage> :=
    [Prospecting, Qualification, NeedsAnalysis, Proposal, Negotiation, ClosedWon, ClosedLost]

  /** Enum.ordinal(): the position of a stage in declaration order. */
  function Ordinal(s: Stage): (n: nat)
    ensures n < |Stages| && Stages[n] == s
  {
    match s
    case Prospecting => 0
    case Qualification => 1
    case NeedsAnalysis => 2
    case Proposal => 3
    case Negotiation => 4
    case ClosedWon => 5
    case ClosedLost => 6
  }

  /** Enum.name(): the constant's identifier, used as a dashboard map key.
      Enum.valueOf reads it back, so distinct stages have distinct names. */
  function StageName(s: Stage): (name: string)
    ensures StageNamed(name) == Some(s)
  {
    match s
    case Prospecting => "PROSPECTING"
    case Qualification => "QUALIFICATION"
    case NeedsAnalysis => "NEEDS_ANALYSIS"
    case Proposal => "PROPOSAL"
    case Negotiation => "NEGOTIATION"
    case ClosedWon => "CLOSED_WON"
    case ClosedLost => "CLOSED_LOST"
  }

  /** Enum.valueOf: the stage with the given name; None where Java throws. */
  function StageNamed(name: string): Option<Stage>
  {
    if name == "PROSPECTING" then Some(Prospecting)
    else if name == "QUALIFICATION" then Some(Qualification)
    else if name == "NEEDS_ANALYSIS" then Some(NeedsAnalysis)
    else if name == "PROPOSAL" then Some(Proposal)
    else if name == "NEGOTIATION" then Some(Negotiation)
    else if name == "CLOSED_WON" then Some(ClosedWon)
    else if name == "CLOSED_LOST" then Some(ClosedLost)
    else None
  }

  /** Declaration order lists each stage once: position i holds the stage of ordinal i. */
  lemma OrdinalOfPosition(i: nat)
    requires i < |Stages|
    ensures Ordinal(Stages[i]) == i
  {
  }

  /** The transition table moveToNextStage follows, written out stage by
      stage: each stage moves to the one declared after it, so CLOSED_WON
      moves on to CLOSED_LOST, and nothing follows CLOSED_LOST. */
  function Successor(s: Stage): (next: Option<Stage>)
    ensures next.None? <==> Ordinal(s) == |Stages| - 1
    ensures next.Some? ==> Ordinal(next.value) == Ordinal(s) + 1
  {
    match s
    case Prospecting => Some(Qualification)
    case Qualification => Some(NeedsAnalysis)
    case NeedsAnalysis => Some(Proposal)
    case Proposal => Some(Negotiation)
    case Negotiation => Some(ClosedWon)
    case ClosedWon => Some(ClosedLost)
    case ClosedLost => None
  }

  /** The probability (percent) updateProbabilityByStage assigns on entering a stage. */
  function StageProbability(s: Stage): (p: int)
    ensures 0 <= p <= 100
    ensures p == 100 <==> s == ClosedWon
    ensures p == 0 <==> s == ClosedLost
  {
    match s
    case Prospecting => 10
    case Qualification => 20
    case NeedsAnalysis => 40
    case Proposal => 60
    case Negotiation => 80
    case ClosedWon => 100
    case ClosedLost => 0
  }

  /** The status a stage forces on entry: only the two closed stages close the deal. */
  function ClosingStatus(s: Stage): (st: Option<Status>)
    ensures st == Some(Won) <==> s == ClosedWon
    ensures st == Some(Lost) <==> s == ClosedLost
    ensures st != Some(Open)
  {
    match s
    case ClosedWon => Some(Won)
    case ClosedLost => Some(Lost)
    case _ => None
  }

  /** Along the open part of the pipeline every advance raises the probability. */
  lemma {:induction false} ProbabilityRisesWhileOpen(s: Stage)
    requires Successor(s).Some? && ClosingStatus(Successor(s).value).None?
    ensures StageProbability(s) < StageProbability(Successor(s).value)
  {
    match s
    case Prospecting =>
    case Qualification =>
    case NeedsAnalysis =>
    case Proposal =>
  }

  class Opportunity {
    var name: string
    var value: Option<real>
    var stage: Option<Stage>
    var status: Status
    var probability: Option<Int32>
    var expectedCloseDate: Option<Date>
    var actualCloseDate: Option<Date>
    var description: Option<string>
    var nextStep: Option<string>
    var tags: Option<string>

    /** A new opportunity with the builder's defaults: PROSPECTING, OPEN, no probability. */
    constructor (name: string, value: Option<real>, expectedCloseDate: Option<Date>)
      ensures this.name == name && this.value == value && this.expectedCloseDate == expectedCloseDate
      ensures stage == Some(Prospecting) && status == Open
      ensures probability == None && actualCloseDate == None
      ensures description == None && nextStep == None && tags == None
      ensures WeightedValue() == 0.0
    {
      this.name := name;
      this.value := value;
      this.expectedCloseDate := expectedCloseDate;
      stage := Some(Prospecting);
      status := Open;
      probability := None;
      actualCloseDate := None;
      description := None;
      nextStep := None;
      tags := None;
    }

    /** getWeightedValue: value * probability / 100, and zero while either is null. */
    function WeightedValue(): (r: real)
      reads this
      ensures value.None? || probability.None? ==> r == 0.0
      ensures value.Some? && probability.Some? ==> r * 100.0 == value.value * probability.value as real
      ensures value.Some? && probability.Some? && 0.0 <= value.value && 0 <= probability.value <= 100
              ==> 0.0 <= r <= value.value
    {
      if value.None? || probability.None? then 0.0
      else
        var v, p := value.value, probability.value as real;
        assert 0.0 <= v && 0.0 <= p <= 100.0 ==> 0.0 <= v * p <= v * 100.0 by {
          if 0.0 <= v && 0.0 <= p <= 100.0 {
            NonNegativeProduct(v, p);
            NonNegativeProduct(v, 100.0 - p);
          }
        }
        v * p / 100.0
    }

    /** isOverdue: the expected close date has passed while the deal is still open. */
    predicate IsOverdue(today: Date)
      reads this
      ensures IsOverdue(today) <==>
                status == Open && expectedCloseDate.Some? && expectedCloseDate.value < today
    {
      expectedCloseDate != None && expectedCloseDate.value < today && status == Open
    }

    /** An overdue deal stays overdue on every later day while its close date
        and status are left as they are. */
    lemma OverdueStaysOverdue(today: Date, later: Date)
      requires IsOverdue(today) && today <= later
      ensures IsOverdue(later)
    {
    }

    /** moveToNextStage: advance by declaration order, then apply the stage's
        probability and, for a closed stage, its status and close date.
        A null stage and the last stage are left as they are. */
    method MoveToNextStage(today: Date)
      modifies this`stage, this`probability, this`status, this`actualCloseDate
      ensures old(stage) == None || old(stage) == Some(ClosedLost) ==> unchanged(this)
      ensures old(stage) != None && old(stage) != Some(ClosedLost) ==>
                && stage == Successor(old(stage).value)
                && stage != None
                && Ordinal(stage.value) == Ordinal(old(stage).value) + 1
                && probability == Some(StageProbability(stage.value))
                && (ClosingStatus(stage.value).Some? ==>
                      status == ClosingStatus(stage.value).value && actualCloseDate == Some(today))
                && (ClosingStatus(stage.value).None? ==>
                      status == old(status) && actualCloseDate == old(actualCloseDate))
      ensures stage == Some(ClosedWon) && old(stage) != stage ==> value.Some? ==> WeightedValue() == value.value
      ensures stage == Some(ClosedLost) && old(stage) != stage ==> WeightedValue() == 0.0 && !IsOverdue(today)
    {
      if stage != None {
        var stages := Stages;
        var currentIndex := Ordinal(stage.value);
        if currentIndex < |stages| - 1 {
          stage := Some(stages[currentIndex + 1]);
          UpdateProbabilityByStage(today);
        }
      }
    }

    /** updateProbabilityByStage: the probability table, plus status and close
        date for the two closed stages. */
    method UpdateProbabilityByStage(today: Date)
      requires stage != None
      modifies this`probability, this`status, this`actualCloseDate
      ensures probability == Some(StageProbability(stage.value))
      ensures ClosingStatus(stage.value).Some? ==>
                status == ClosingStatus(stage.value).value && actualCloseDate == Some(today)
      ensures ClosingStatus(stage.value).None? ==>
                status == old(status) && actualCloseDate == old(actualCloseDate)
    {
      match stage.value
      case Prospecting =>
        probability := Some(10);
      case Qualification =>
        probability := Some(20);
      case NeedsAnalysis =>
        probability := Some(40);
      case Proposal =>
        probability := Some(60);
      case Negotiation =>
        probability := Some(80);
      case ClosedWon =>
        probability := Some(100);
        status := Won;
        actualCloseDate := Some(today);
      case ClosedLost =>
        probability := Some(0);
        status := Lost;
        actualCloseDate := Some(today);
    }
  }
}
