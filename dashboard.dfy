/** The dashboard's activity lists and pipeline counts
    (service/DashboardService.java). The repositories' query results are
    parameters: `activities` is what findByIsDeletedFalse returns and
    `opportunities` the non-deleted opportunities, each in the order the
    database returns them. */
module Dashboard {
  import opened Base
  import opened Sorting
  import Activities
  import Opportunities

  /** IllegalArgumentException, which Stream.limit throws for a negative size. */
  datatype DashboardError = IllegalArgument

  function Min(a: int, b: int): int
  {
    if a <= b then a else b
  }

  /** Each activity keyed so that ascending keys put the newest first. */
  function NewestFirstKeys(activities: seq<Activities.Activity>): (keyed: seq<Keyed<Activities.Activity>>)
    ensures |keyed| == |activities|
    ensures forall i :: 0 <= i < |activities| ==> keyed[i] == (-activities[i].createdAt, activities[i])
  {
    seq(|activities|, i requires 0 <= i < |activities| => (-activities[i].createdAt, activities[i]))
  }

  lemma NewestFirstKeysFacts(activities: seq<Activities.Activity>)
    ensures forall p :: p in NewestFirstKeys(activities) ==> p.0 == -p.1.createdAt && p.1 in activities
    ensures forall a :: a in activities ==> (-a.createdAt, a) in NewestFirstKeys(activities)
    ensures Rows(NewestFirstKeys(activities)) == activities
  {
    var keyed := NewestFirstKeys(activities);
    forall a | a in activities ensures (-a.createdAt, a) in keyed {
      var j :| 0 <= j < |activities| && activities[j] == a;
      assert keyed[j] == (-a.createdAt, a);
    }
  }

  /** The activities created at moment c, in their order in the list. */
  function WithCreation(activities: seq<Activities.Activity>, c: DateTime): seq<Activities.Activity>
  {
    if activities == [] then []
    else (if activities[0].createdAt == c then [activities[0]] else []) + WithCreation(activities[1..], c)
  }

  /** For rows keyed newest first, the rows with key -c are the rows created at c. */
  lemma {:induction false} NewestKeyIsCreation(t: seq<Keyed<Activities.Activity>>, c: DateTime)
    requires forall i :: 0 <= i < |t| ==> t[i].0 == -t[i].1.createdAt
    ensures Rows(WithKey(t, -c)) == WithCreation(Rows(t), c)
  {
    if t != [] {
      NewestKeyIsCreation(t[1..], c);
      assert Rows(t)[1..] == Rows(t[1..]);
      RowsAppend(if t[0].0 == -c then [t[0]] else [], WithKey(t[1..], -c));
    }
  }

  /** The n newest activities: the rows of the first n of the activities
      sorted by descending creation time. */
  lemma {:induction false} NewestSelection(activities: seq<Activities.Activity>, n: nat)
    ensures var r := Rows(Take(SortByKey(NewestFirstKeys(activities)), n));
            && |r| == Min(n, |activities|)
            && (forall i :: 0 <= i < |r| ==> r[i] in activities)
            && (forall i, j :: 0 <= i < j < |r| ==> r[i].createdAt >= r[j].createdAt)
            && (forall a, b :: a in activities && a !in r && b in r ==> b.createdAt >= a.createdAt)
  {
    var keyed := NewestFirstKeys(activities);
    var t := Take(SortByKey(keyed), n);
    var r := Rows(t);
    SmallestKeys(keyed, n);
    NewestFirstKeysFacts(activities);
    assert forall i :: 0 <= i < |t| ==> t[i].0 == -r[i].createdAt && r[i] in activities;
    forall a, b | a in activities && a !in r && b in r ensures b.createdAt >= a.createdAt {
      var i :| 0 <= i < |r| && r[i] == b;
      assert (-a.createdAt, a) in keyed;
    }
  }

  /** The n newest activities take no activity more often than the list holds
      it, and all of them, as often, when there are at most n. */
  lemma NewestCounts(activities: seq<Activities.Activity>, n: nat)
    ensures var r := Rows(Take(SortByKey(NewestFirstKeys(activities)), n));
            && multiset(r) <= multiset(activities)
            && (|activities| <= n ==> multiset(r) == multiset(activities))
  {
    SmallestKeys(NewestFirstKeys(activities), n);
    NewestFirstKeysFacts(activities);
  }

  /** In the n newest activities, those created at the same moment keep
      their order in the list, and they are the first ones of that moment. */
  lemma NewestTies(activities: seq<Activities.Activity>, n: nat)
    ensures var r := Rows(Take(SortByKey(NewestFirstKeys(activities)), n));
            forall c :: WithCreation(r, c) <= WithCreation(activities, c)
  {
    var keyed := NewestFirstKeys(activities);
    var t := Take(SortByKey(keyed), n);
    SmallestKeys(keyed, n);
    NewestFirstKeysFacts(activities);
    SortByKeyProperties(keyed);
    forall c ensures WithCreation(Rows(t), c) <= WithCreation(activities, c) {
      assert forall i :: 0 <= i < |t| ==> t[i] in keyed;
      NewestKeyIsCreation(t, c);
      NewestKeyIsCreation(keyed, c);
      RowsPrefix(WithKey(t, -c), WithKey(keyed, -c));
    }
  }

  /** getRecentActivities: the activities newest first (equal creation times
      in the order they were found), cut to `limit`; a negative limit makes
      Stream.limit throw. */
  function RecentActivities(activities: seq<Activities.Activity>, limit: Int32): (r: Result<seq<Activities.Activity>, DashboardError>)
    ensures r.Err? <==> limit < 0
    ensures r.Ok? ==> |r.value| == Min(limit, |activities|)
    ensures r.Ok? ==> forall i :: 0 <= i < |r.value| ==> r.value[i] in activities
    ensures r.Ok? ==> multiset(r.value) <= multiset(activities)
    ensures r.Ok? ==> forall i, j :: 0 <= i < j < |r.value| ==> r.value[i].createdAt >= r.value[j].createdAt
    ensures r.Ok? ==> forall a, b :: a in activities && a !in r.value && b in r.value ==> b.createdAt >= a.createdAt
    ensures r.Ok? ==> forall c :: WithCreation(r.value, c) <= WithCreation(activities, c)
    ensures r.Ok? && |activities| <= limit ==> multiset(r.value) == multiset(activities)
  {
    if limit < 0 then Err(IllegalArgument)
    else
      NewestSelection(activities, limit);
      NewestTies(activities, limit);
      NewestCounts(activities, limit);
      Ok(Rows(Take(SortByKey(NewestFirstKeys(activities)), limit)))
  }

  /** The activity's due moment is set and lies in [start, end]. */
  predicate DueIn(a: Activities.Activity, start: DateTime, end: DateTime)
    reads a
  {
    a.dueDate.Some? && start <= a.dueDate.value <= end
  }

  /** The repository's BETWEEN query over the non-deleted activities: those
      whose due moment lies in [start, end], both ends included, each keyed
      by that moment, in the order they were found. */
  function DueBetween(activities: seq<Activities.Activity>, start: DateTime, end: DateTime): (keyed: seq<Keyed<Activities.Activity>>)
    reads activities
    ensures |keyed| <= |activities|
    ensures forall p :: p in keyed ==> p.1 in activities && p.1.dueDate == Some(p.0) && start <= p.0 <= end
    ensures forall a :: a in activities && a.dueDate.Some? && start <= a.dueDate.value <= end ==>
                        (a.dueDate.value, a) in keyed
  {
    if activities == [] then []
    else
      var a := activities[0];
      var rest := DueBetween(activities[1..], start, end);
      assert forall b :: b in activities ==> b == a || b in activities[1..];
      if a.dueDate.Some? && start <= a.dueDate.value <= end then [(a.dueDate.value, a)] + rest else rest
  }

  /** The BETWEEN query keeps each activity of the window exactly as often as
      the list has it, and no other. */
  lemma {:induction false} DueBetweenCounts(activities: seq<Activities.Activity>, start: DateTime, end: DateTime)
    ensures var found := Rows(DueBetween(activities, start, end));
            forall a :: multiset(found)[a] == if DueIn(a, start, end) then multiset(activities)[a] else 0
  {
    if activities != [] {
      var a := activities[0];
      var rest := DueBetween(activities[1..], start, end);
      var found, foundRest := Rows(DueBetween(activities, start, end)), Rows(rest);
      DueBetweenCounts(activities[1..], start, end);
      assert activities == [a] + activities[1..];
      assert multiset(activities) == multiset{a} + multiset(activities[1..]);
      if DueIn(a, start, end) {
        RowsAppend([(a.dueDate.value, a)], rest);
        assert found == [a] + foundRest;
      } else {
        assert found == foundRest;
      }
    }
  }

  /** The activities due at moment d, in their order in the list. */
  function WithDue(activities: seq<Activities.Activity>, d: DateTime): seq<Activities.Activity>
    reads activities
  {
    if activities == [] then []
    else (if activities[0].dueDate == Some(d) then [activities[0]] else []) + WithDue(activities[1..], d)
  }

  /** For rows keyed by their due moment, the rows with key d are the rows due at d. */
  lemma {:induction false} DueKeyIsDue(t: seq<Keyed<Activities.Activity>>, d: DateTime)
    requires forall i :: 0 <= i < |t| ==> t[i].1.dueDate == Some(t[i].0)
    ensures Rows(WithKey(t, d)) == WithDue(Rows(t), d)
  {
    if t != [] {
      DueKeyIsDue(t[1..], d);
      assert Rows(t)[1..] == Rows(t[1..]);
      RowsAppend(if t[0].0 == d then [t[0]] else [], WithKey(t[1..], d));
    }
  }

  /** The BETWEEN query keeps, for a moment d of the window, every activity
      due at d in the order they were found. */
  lemma {:induction false} DueBetweenKeepsOrder(activities: seq<Activities.Activity>, start: DateTime, end: DateTime, d: DateTime)
    requires start <= d <= end
    ensures Rows(WithKey(DueBetween(activities, start, end), d)) == WithDue(activities, d)
  {
    if activities != [] {
      var a := activities[0];
      var rest := DueBetween(activities[1..], start, end);
      DueBetweenKeepsOrder(activities[1..], start, end, d);
      if DueIn(a, start, end) {
        WithKeyAppend([(a.dueDate.value, a)], rest, d);
        RowsAppend(WithKey([(a.dueDate.value, a)], d), WithKey(rest, d));
      }
    }
  }

  /** The n activities due soonest in [start, end]: the rows of the first n of
      the window's activities sorted by ascending due moment. */
  lemma {:induction false} SoonestSelection(activities: seq<Activities.Activity>, start: DateTime, end: DateTime, n: nat)
    ensures var window := DueBetween(activities, start, end);
            var r := Rows(Take(SortByKey(window), n));
            && |r| == Min(n, |window|)
            && (forall i :: 0 <= i < |r| ==> r[i] in activities && DueIn(r[i], start, end))
            && (forall i, j :: 0 <= i < j < |r| ==> r[i].dueDate.value <= r[j].dueDate.value)
            && (forall a, b ::
                  a in activities && DueIn(a, start, end) && a !in r && b in r
                  ==> b.dueDate.value <= a.dueDate.value)
  {
    var window := DueBetween(activities, start, end);
    var t := Take(SortByKey(window), n);
    var r := Rows(t);
    SmallestKeys(window, n);
    assert forall i :: 0 <= i < |t| ==> t[i] in window;
    forall a, b | a in activities && DueIn(a, start, end) && a !in r && b in r
      ensures b.dueDate.value <= a.dueDate.value
    {
      var i :| 0 <= i < |r| && r[i] == b;
      assert (a.dueDate.value, a) in window;
    }
  }

  /** The n activities due soonest take no activity more often than the list
      holds it, and when the window fits every one of its activities as often. */
  lemma SoonestCounts(activities: seq<Activities.Activity>, start: DateTime, end: DateTime, n: nat)
    ensures var window := DueBetween(activities, start, end);
            var r := Rows(Take(SortByKey(window), n));
            && multiset(r) <= multiset(activities)
            && (|window| <= n ==> forall a :: DueIn(a, start, end) ==> multiset(r)[a] == multiset(activities)[a])
  {
    SmallestKeys(DueBetween(activities, start, end), n);
    DueBetweenCounts(activities, start, end);
  }

  /** In the n activities due soonest, those due at the same moment keep
      their order in the list, and they are the first ones of that moment. */
  lemma SoonestTies(activities: seq<Activities.Activity>, start: DateTime, end: DateTime, n: nat)
    ensures var r := Rows(Take(SortByKey(DueBetween(activities, start, end)), n));
            forall d :: start <= d <= end ==> WithDue(r, d) <= WithDue(activities, d)
  {
    var window := DueBetween(activities, start, end);
    var t := Take(SortByKey(window), n);
    SmallestKeys(window, n);
    forall d | start <= d <= end ensures WithDue(Rows(t), d) <= WithDue(activities, d) {
      assert forall i :: 0 <= i < |t| ==> t[i] in window;
      DueKeyIsDue(t, d);
      DueBetweenKeepsOrder(activities, start, end, d);
      RowsPrefix(WithKey(t, d), WithKey(window, d));
    }
  }

  /** getUpcomingActivities: the activities due from now to seven days on,
      soonest first (equal due moments in the order they were found), cut to
      `limit`; a negative limit makes Stream.limit throw. */
  function UpcomingActivities(activities: seq<Activities.Activity>, now: DateTime, limit: Int32): (r: Result<seq<Activities.Activity>, DashboardError>)
    reads activities
    ensures r.Err? <==> limit < 0
    ensures r.Ok? ==> |r.value| == Min(limit, |DueBetween(activities, now, PlusDays(now, 7))|)
    ensures r.Ok? ==>
              && (forall i :: 0 <= i < |r.value| ==>
                    r.value[i] in activities && DueIn(r.value[i], now, PlusDays(now, 7)))
              && (forall i, j :: 0 <= i < j < |r.value| ==> r.value[i].dueDate.value <= r.value[j].dueDate.value)
              && (forall a, b ::
                    a in activities && DueIn(a, now, PlusDays(now, 7)) && a !in r.value && b in r.value
                    ==> b.dueDate.value <= a.dueDate.value)
    ensures r.Ok? ==> multiset(r.value) <= multiset(activities)
    ensures r.Ok? ==> forall d :: now <= d <= PlusDays(now, 7) ==> WithDue(r.value, d) <= WithDue(activities, d)
    ensures r.Ok? && |DueBetween(activities, now, PlusDays(now, 7))| <= limit ==>
              forall a :: a in activities && DueIn(a, now, PlusDays(now, 7)) ==>
                multiset(r.value)[a] == multiset(activities)[a]
  {
    if limit < 0 then Err(IllegalArgument)
    else
      var window := DueBetween(activities, now, PlusDays(now, 7));
      SoonestSelection(activities, now, PlusDays(now, 7), limit);
      SoonestTies(activities, now, PlusDays(now, 7), limit);
      SoonestCounts(activities, now, PlusDays(now, 7), limit);
      Ok(Rows(Take(SortByKey(window), limit)))
  }

  /** The number of opportunities in a stage (findByStageAndIsDeletedFalse(stage).size()). */
  function CountInStage(opportunities: seq<Opportunities.Opportunity>, stage: Opportunities.Stage): (n: nat)
    reads opportunities
    ensures n <= |opportunities|
  {
    if opportunities == [] then 0
    else (if opportunities[0].stage == Some(stage) then 1 else 0) + CountInStage(opportunities[1..], stage)
  }

  /** getPipelineData: one entry per stage, keyed by the stage's name, holding
      the number of opportunities in that stage. */
  method GetPipelineData(opportunities: seq<Opportunities.Opportunity>) returns (pipeline: map<string, int>)
    ensures forall s :: Opportunities.StageName(s) in pipeline &&
                        pipeline[Opportunities.StageName(s)] == CountInStage(opportunities, s)
    ensures forall k :: k in pipeline ==> Opportunities.StageNamed(k).Some?
    ensures |pipeline| == |Opportunities.Stages|
  {
    var stages := Opportunities.Stages;
    pipeline := map[];
    for i := 0 to |stages|
      invariant forall s :: Opportunities.Ordinal(s) < i ==>
                  Opportunities.StageName(s) in pipeline &&
                  pipeline[Opportunities.StageName(s)] == CountInStage(opportunities, s)
      invariant forall k :: k in pipeline ==>
                  Opportunities.StageNamed(k).Some? && Opportunities.Ordinal(Opportunities.StageNamed(k).value) < i
      invariant |pipeline| == i
    {
      var stage := stages[i];
      Opportunities.OrdinalOfPosition(i);
      var count := CountInStage(opportunities, stage);
      pipeline := pipeline[Opportunities.StageName(stage) := count];
    }
  }

  /** The pipeline's counts added up over a list of stages. */
  function StageTotal(opportunities: seq<Opportunities.Opportunity>, stages: seq<Opportunities.Stage>): nat
    reads opportunities
  {
    if stages == [] then 0
    else CountInStage(opportunities, stages[0]) + StageTotal(opportunities, stages[1..])
  }

  /** How many entries of `stages` an opportunity with stage `stage` is counted under. */
  function Occurrences(stage: Option<Opportunities.Stage>, stages: seq<Opportunities.Stage>): nat
  {
    if stages == [] then 0
    else (if stage == Some(stages[0]) then 1 else 0) + Occurrences(stage, stages[1..])
  }

  lemma {:induction false} StageTotalSplit(opportunities: seq<Opportunities.Opportunity>, stages: seq<Opportunities.Stage>)
    requires opportunities != []
    ensures StageTotal(opportunities, stages) ==
            Occurrences(opportunities[0].stage, stages) + StageTotal(opportunities[1..], stages)
  {
    if stages != [] {
      StageTotalSplit(opportunities, stages[1..]);
    }
  }

  lemma {:induction false} NoOpportunitiesNoCount(opportunities: seq<Opportunities.Opportunity>, stages: seq<Opportunities.Stage>)
    requires opportunities == []
    ensures StageTotal(opportunities, stages) == 0
  {
    if stages != [] {
      NoOpportunitiesNoCount(opportunities, stages[1..]);
    }
  }

  /** In a list without repeats a stage is counted once if it is listed and not at all otherwise. */
  lemma {:induction false} OccurrencesInDistinct(stage: Opportunities.Stage, stages: seq<Opportunities.Stage>)
    requires forall i, j :: 0 <= i < j < |stages| ==> stages[i] != stages[j]
    ensures Occurrences(Some(stage), stages) == if stage in stages then 1 else 0
  {
    if stages != [] {
      OccurrencesInDistinct(stage, stages[1..]);
      assert stages == [stages[0]] + stages[1..];
      if stage == stages[0] {
        assert stage !in stages[1..] by {
          forall j | 0 <= j < |stages[1..]| ensures stages[1..][j] != stage {
            assert stages[1..][j] == stages[j + 1];
          }
        }
      }
    }
  }

  /** Each stage appears exactly once among the stages. */
  lemma EveryStageOnce(stage: Opportunities.Stage)
    ensures Occurrences(Some(stage), Opportunities.Stages) == 1
  {
    forall i, j | 0 <= i < j < |Opportunities.Stages|
      ensures Opportunities.Stages[i] != Opportunities.Stages[j]
    {
      Opportunities.OrdinalOfPosition(i);
      Opportunities.OrdinalOfPosition(j);
    }
    OccurrencesInDistinct(stage, Opportunities.Stages);
    assert Opportunities.Stages[Opportunities.Ordinal(stage)] == stage;
  }

  /** When every opportunity has a stage, the pipeline's counts add up to the
      number of opportunities: each is counted under exactly one stage. */
  lemma {:induction false} PipelineCountsEveryOpportunity(opportunities: seq<Opportunities.Opportunity>)
    requires forall i :: 0 <= i < |opportunities| ==> opportunities[i].stage.Some?
    ensures StageTotal(opportunities, Opportunities.Stages) == |opportunities|
  {
    if opportunities == [] {
      NoOpportunitiesNoCount(opportunities, Opportunities.Stages);
    } else {
      StageTotalSplit(opportunities, Opportunities.Stages);
      EveryStageOnce(opportunities[0].stage.value);
      PipelineCountsEveryOpportunity(opportunities[1..]);
    }
  }
}
