/**
 The bot as a state machine over the fixed rule table: each command the chat
 delivers (welcome, text message, leaderboard, reset) moves the state and
 produces a reply.
 */
module Bot {
  import opened Rules
  import opened ScoreTable
  import opened Scoring
  import opened Leaderboard
  import DailyRule

  /** The inputs the bot reacts to; `today` is the date the message is handled on. */
  datatype Command =
    | Start
    | Message(user: User, text: string, today: Day)
    | ShowLeaderboard
    | ResetAll

  datatype Response =
    | Welcome
    | Replied(reply: Reply)
    | Shown(board: Board)
    | ResetDone

  /** One command against the fixed rule table. */
  function Step(st: State, cmd: Command): (r: (State, Response))
    requires ScoreTable.WellFormed(st.scores)
    ensures ScoreTable.WellFormed(r.0.scores)
    ensures cmd.Start? || cmd.ShowLeaderboard? ==> r.0 == st
    ensures cmd.ShowLeaderboard? ==> (r.1 == Shown(EmptyBoard) <==> st.scores.totals == map[])
    ensures cmd.ResetAll? ==> r.0.scores.totals == map[] && r.0.ledger == map[]
    ensures cmd.Message? ==> forall u :: Get(r.0.scores, u) >= Get(st.scores, u)
  {
    match cmd
    case Start => (st, Welcome)
    case Message(user, text, today) =>
      TableWellFormed();
      var o := HandleMessage(Rules.Table, st, user, text, today);
      (o.state, Replied(o.reply))
    case ShowLeaderboard => (st, Shown(Render(st.scores)))
    case ResetAll => (Reset(st), ResetDone)
  }

  /** The state after a sequence of commands. */
  function Run(st: State, cmds: seq<Command>): (r: State)
    requires ScoreTable.WellFormed(st.scores)
    ensures ScoreTable.WellFormed(r.scores)
    decreases |cmds|
  {
    if |cmds| == 0 then st else Run(Step(st, cmds[0]).0, cmds[1..])
  }

  predicate NoReset(cmds: seq<Command>) {
    forall i :: 0 <= i < |cmds| ==> !cmds[i].ResetAll?
  }

  /** Between resets every total stays non-negative and never goes down. */
  lemma {:induction false} TotalsNeverDecreaseWithoutReset(st: State, cmds: seq<Command>, u: User)
    requires ScoreTable.Valid(st.scores)
    requires NoReset(cmds)
    ensures ScoreTable.Valid(Run(st, cmds).scores)
    ensures Get(Run(st, cmds).scores, u) >= Get(st.scores, u)
    decreases |cmds|
  {
    if |cmds| > 0 {
      var next := Step(st, cmds[0]).0;
      if cmds[0].Message? {
        TableWellFormed();
        DailyRule.ScoresNeverDecrease(Rules.Table, st, cmds[0].user, cmds[0].text, cmds[0].today);
      }
      assert NoReset(cmds[1..]) by {
        assert forall i :: 0 <= i < |cmds[1..]| ==> cmds[1..][i] == cmds[i + 1];
      }
      TotalsNeverDecreaseWithoutReset(next, cmds[1..], u);
    }
  }

  /** Right after a reset the leaderboard shows the empty board. */
  lemma ResetThenLeaderboardEmpty(st: State)
    requires ScoreTable.WellFormed(st.scores)
    ensures var cleared := Step(st, ResetAll).0;
            Step(cleared, ShowLeaderboard).1 == Shown(EmptyBoard)
  {
  }

  /** Showing the leaderboard twice with nothing in between shows the same board. */
  lemma LeaderboardRepeatable(st: State)
    requires ScoreTable.WellFormed(st.scores)
    ensures var first := Step(st, ShowLeaderboard);
            Step(first.0, ShowLeaderboard) == first
  {
  }
}
