/**
 A worked example with the rules "#workout" and "#sensazioni", worth 10 each:
 alice's "#workout" earns 10, the same message later that day earns nothing,
 on the next day it earns 10 again, and the leaderboard then reads "alice: 20".
 */
module WorkedExample {
  import opened Rules
  import opened ScoreTable
  import opened Scoring
  import opened Leaderboard

  /** The two-rule table of the example. */
  const Two: seq<Rule> := [Rule("#workout", 10), Rule("#sensazioni", 10)]

  /** The table is well-formed; "#workout" contains its first tag and not its second. */
  lemma TwoFacts()
    ensures Rules.WellFormed(Two)
    ensures Occurs(Two[0].tag, "#workout") && !Occurs(Two[1].tag, "#workout")
  {
  }

  /** Against the two-rule table, "#workout" matches one tag and earns 10 unless that tag is stamped today. */
  lemma WorkoutScan(used: Usage, today: Day)
    ensures MatchedTags(Two, "#workout") == {"#workout"}
    ensures Earned(Two, used, "#workout", today) == (if Awardable(used, "#workout", today) then 10 else 0)
  {
    TwoFacts();
    assert Eligible(Two[0], used, "#workout", today) == Awardable(used, "#workout", today);
    assert !Eligible(Two[1], used, "#workout", today);
    assert Earned(Two[1..], used, "#workout", today) == Earned(Two[2..], used, "#workout", today);
    assert MatchedTags(Two, "#workout") == {"#workout"} by {
      forall t | t in MatchedTags(Two, "#workout") ensures t == "#workout" {
        var k :| 0 <= k < |Two| && Occurs(Two[k].tag, "#workout") && Two[k].tag == t;
      }
      assert Two[0].tag in MatchedTags(Two, "#workout");
    }
  }

  /** A "#workout" message from alice: the tag is stamped with today, and it earns 10 unless already stamped today. */
  lemma WorkoutMessage(st: State, today: Day)
    requires ScoreTable.WellFormed(st.scores)
    ensures var o := HandleMessage(Two, st, "alice", "#workout", today);
            && Slot(o.state.ledger, "alice") == Slot(st.ledger, "alice")["#workout" := today]
            && o.points == (if Awardable(Slot(st.ledger, "alice"), "#workout", today) then 10 else 0)
  {
    TwoFacts();
    var used := Slot(st.ledger, "alice");
    WorkoutScan(used, today);
    var slot := Slot(HandleMessage(Two, st, "alice", "#workout", today).state.ledger, "alice");
    assert slot.Keys == used.Keys + {"#workout"};
    assert slot == used["#workout" := today];
  }

  /** Alice's "#workout" on day 1, again on day 1, then on day 2. */
  lemma AliceExample()
    ensures var m1 := HandleMessage(Two, Initial, "alice", "#workout", 1);
            var m2 := HandleMessage(Two, m1.state, "alice", "#workout", 1);
            var m3 := HandleMessage(Two, m2.state, "alice", "#workout", 2);
            && m1.reply == Awarded("alice", 10, 10)
            && m2.reply == AlreadyUsed("alice")
            && m3.reply == Awarded("alice", 10, 20)
            && m3.state.scores.order == ["alice"]
            && Get(m3.state.scores, "alice") == 20
  {
    var m1 := HandleMessage(Two, Initial, "alice", "#workout", 1);
    WorkoutMessage(Initial, 1);
    var m2 := HandleMessage(Two, m1.state, "alice", "#workout", 1);
    WorkoutMessage(m1.state, 1);
    WorkoutMessage(m2.state, 2);
    var m3 := HandleMessage(Two, m2.state, "alice", "#workout", 2);
    assert m1.state.scores.order == ["alice"];
    assert m3.state.scores.order == ["alice"];
  }

  /** A table with a single user ranks just that user. */
  lemma SingleUserBoard(t: ScoreTable.Table, u: User)
    requires ScoreTable.WellFormed(t) && t.order == [u]
    ensures Render(t) == Ranking([Entry(u, Get(t, u))])
  {
    assert u in t.totals;
    assert Entries(t) == [Entry(u, Get(t, u))];
  }

  /** After the three messages the leaderboard ranks alice alone, with 20 points. */
  lemma AliceBoard()
    ensures var m1 := HandleMessage(Two, Initial, "alice", "#workout", 1);
            var m2 := HandleMessage(Two, m1.state, "alice", "#workout", 1);
            var m3 := HandleMessage(Two, m2.state, "alice", "#workout", 2);
            Render(m3.state.scores) == Ranking([Entry("alice", 20)])
  {
    AliceExample();
    TwoFacts();
    var m1 := HandleMessage(Two, Initial, "alice", "#workout", 1);
    var m2 := HandleMessage(Two, m1.state, "alice", "#workout", 1);
    var m3 := HandleMessage(Two, m2.state, "alice", "#workout", 2);
    SingleUserBoard(m3.state.scores, "alice");
  }
}
