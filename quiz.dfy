/** `QuizSection`: a quiz widget whose answer statistics, reactions and
    leaderboard are jittered every three seconds, and its selection state. */
module QuizSection {
  import opened RandomDraw
  import opened Wrappers

  datatype Question = Question(question: string, options: seq<string>, correctAnswer: nat)

  const QuizQuestions: seq<Question> := [
    Question("Who scored the first goal in the match?",
             ["Firas Al-Buraikan", "Salem Al-Dawsari", "Taremi", "Azmoun"], 0)
  ]

  datatype Reactions = Reactions(likes: int, comments: int, shares: int)

  datatype Player = Player(username: string, score: int, streak: int)

  datatype CurrentUser = CurrentUser(username: string, score: int, streak: int, rank: int,
                                     percentile: int, pointsBalance: int, pointsWon: int)

  datatype Stats = Stats(answers: seq<int>, reactions: Reactions, leaderboard: seq<Player>,
                         currentUser: CurrentUser)

  const MockStats: Stats := Stats(
    [45, 20, 15, 20],
    Reactions(128, 32, 15),
    [Player("FootballFan123", 100, 5), Player("SoccerExpert", 95, 4), Player("MatchCommentator", 90, 3)],
    CurrentUser("You", 85, 2, 4, 92, 1250, 50))

  /** The `Math.random()` values one periodic update draws: one per answer, one per
      reaction counter, two per leaderboard row and two for the current user. */
  datatype Draws = Draws(answers: seq<real>, likes: real, comments: real, shares: real,
                         scores: seq<real>, streaks: seq<real>, userScore: real, userStreak: real)

  predicate AllUnit(us: seq<real>) {
    forall k :: 0 <= k < |us| ==> IsUnit(us[k])
  }

  /** `d` is a possible set of draws for an update of stats with `answers` answers
      and `players` leaderboard rows. */
  predicate DrawsFit(d: Draws, answers: nat, players: nat) {
    && |d.answers| == answers && AllUnit(d.answers)
    && IsUnit(d.likes) && IsUnit(d.comments) && IsUnit(d.shares)
    && |d.scores| == players && AllUnit(d.scores)
    && |d.streaks| == players && AllUnit(d.streaks)
    && IsUnit(d.userScore) && IsUnit(d.userStreak)
  }

  /** `Math.max(0, Math.min(100, x))` */
  function Clamp(x: int): (r: int)
    ensures 0 <= r <= 100
    ensures 0 <= x <= 100 ==> r == x
    ensures x > 100 ==> r == 100
    ensures x < 0 ==> r == 0
  {
    if x > 100 then 100 else if x < 0 then 0 else x
  }

  /** One answer percentage after a change of `Math.floor(u * 10) - 5`. */
  function Jiggle(percent: int, u: real): (r: int)
    requires IsUnit(u)
    ensures 0 <= r <= 100
    ensures 0 <= percent <= 100 ==> -5 <= r - percent <= 4
  {
    var change := FloorIndex(u, 10) - 5;
    Clamp(percent + change)
  }

  /** `Math.random() > 0.8 ? 1 : 0` */
  function StreakBump(u: real): (b: int)
    ensures b == 0 || b == 1
    ensures b == 1 <==> u > 0.8
  {
    if u > 0.8 then 1 else 0
  }

  /** The `setDynamicStats` updater run by the three-second interval. */
  function Tick(s: Stats, d: Draws): (r: Stats)
    requires DrawsFit(d, |s.answers|, |s.leaderboard|)
    ensures |r.answers| == |s.answers|
    ensures forall k :: 0 <= k < |r.answers| ==> 0 <= r.answers[k] <= 100
    ensures forall k :: 0 <= k < |r.answers| && 0 <= s.answers[k] <= 100 ==>
              -5 <= r.answers[k] - s.answers[k] <= 4
    ensures s.reactions.likes <= r.reactions.likes <= s.reactions.likes + 4
    ensures s.reactions.comments <= r.reactions.comments <= s.reactions.comments + 1
    ensures s.reactions.shares <= r.reactions.shares <= s.reactions.shares + 1
    ensures |r.leaderboard| == |s.leaderboard|
    ensures forall k :: 0 <= k < |r.leaderboard| ==>
              && r.leaderboard[k].username == s.leaderboard[k].username
              && s.leaderboard[k].score <= r.leaderboard[k].score <= s.leaderboard[k].score + 2
              && s.leaderboard[k].streak <= r.leaderboard[k].streak <= s.leaderboard[k].streak + 1
    ensures r.currentUser.username == s.currentUser.username
    ensures r.currentUser.rank == s.currentUser.rank
    ensures r.currentUser.percentile == s.currentUser.percentile
    ensures r.currentUser.pointsBalance == s.currentUser.pointsBalance
    ensures r.currentUser.pointsWon == s.currentUser.pointsWon
    ensures s.currentUser.score <= r.currentUser.score <= s.currentUser.score + 2
    ensures s.currentUser.streak <= r.currentUser.streak <= s.currentUser.streak + 1
  {
    var answers := seq(|s.answers|, k requires 0 <= k < |s.answers| => Jiggle(s.answers[k], d.answers[k]));
    var reactions := Reactions(
      s.reactions.likes + FloorIndex(d.likes, 5),
      s.reactions.comments + FloorIndex(d.comments, 2),
      s.reactions.shares + FloorIndex(d.shares, 2));
    var leaderboard := seq(|s.leaderboard|, k requires 0 <= k < |s.leaderboard| =>
      s.leaderboard[k].(score := s.leaderboard[k].score + FloorIndex(d.scores[k], 3),
                        streak := s.leaderboard[k].streak + StreakBump(d.streaks[k])));
    var user := s.currentUser.(score := s.currentUser.score + FloorIndex(d.userScore, 3),
                               streak := s.currentUser.streak + StreakBump(d.userStreak),
                               pointsBalance := s.currentUser.pointsBalance);
    Stats(answers, reactions, leaderboard, user)
  }

  /** The stats after one update per element of `ds`. */
  function Run(s: Stats, ds: seq<Draws>): (r: Stats)
    requires forall k :: 0 <= k < |ds| ==> DrawsFit(ds[k], |s.answers|, |s.leaderboard|)
    ensures |r.answers| == |s.answers| && |r.leaderboard| == |s.leaderboard|
    decreases |ds|
  {
    if ds == [] then s
    else
      var next := Tick(s, ds[0]);
      Run(next, ds[1..])
  }

  /** What every reachable stats value keeps: four percentages in [0, 100]. */
  predicate AnswersValid(s: Stats) {
    |s.answers| == 4 && forall k :: 0 <= k < 4 ==> 0 <= s.answers[k] <= 100
  }

  /** Counters only grow, and the fields the update copies stay as they were. */
  predicate Grown(s: Stats, r: Stats) {
    && s.reactions.likes <= r.reactions.likes
    && s.reactions.comments <= r.reactions.comments
    && s.reactions.shares <= r.reactions.shares
    && |r.leaderboard| == |s.leaderboard|
    && (forall k :: 0 <= k < |s.leaderboard| ==>
          && r.leaderboard[k].username == s.leaderboard[k].username
          && s.leaderboard[k].score <= r.leaderboard[k].score
          && s.leaderboard[k].streak <= r.leaderboard[k].streak)
    && r.currentUser.username == s.currentUser.username
    && r.currentUser.rank == s.currentUser.rank
    && r.currentUser.percentile == s.currentUser.percentile
    && r.currentUser.pointsBalance == s.currentUser.pointsBalance
    && r.currentUser.pointsWon == s.currentUser.pointsWon
    && s.currentUser.score <= r.currentUser.score
    && s.currentUser.streak <= r.currentUser.streak
  }

  lemma GrownTransitive(a: Stats, b: Stats, c: Stats)
    requires Grown(a, b) && Grown(b, c)
    ensures Grown(a, c)
  {
  }

  /** However many updates run and whatever they draw, the percentages stay valid
      and every counter is at least where it started. */
  lemma {:induction false} RunKeepsInvariants(s: Stats, ds: seq<Draws>)
    requires AnswersValid(s)
    requires forall k :: 0 <= k < |ds| ==> DrawsFit(ds[k], |s.answers|, |s.leaderboard|)
    ensures AnswersValid(Run(s, ds))
    ensures Grown(s, Run(s, ds))
    decreases |ds|
  {
    if ds != [] {
      var next := Tick(s, ds[0]);
      assert Grown(s, next);
      RunKeepsInvariants(next, ds[1..]);
      GrownTransitive(s, next, Run(next, ds[1..]));
    }
  }

  // ---------------------------------------------------------------------------
  // Quiz selection state

  datatype QuizState = QuizState(currentQuestion: nat, selectedAnswer: Option<int>, showStats: bool,
                                 showLeaderboard: bool, showPointsWon: bool)

  const InitialQuizState: QuizState := QuizState(0, None, false, false, false)

  /** `handleAnswerSelect(index)` */
  function SelectAnswer(s: QuizState, index: int): (r: QuizState)
    ensures r.selectedAnswer == Some(index) && r.showStats && r.showPointsWon
    ensures r.currentQuestion == s.currentQuestion && r.showLeaderboard == s.showLeaderboard
  {
    s.(selectedAnswer := Some(index), showStats := true, showPointsWon := true)
  }

  /** `toggleLeaderboard()` */
  function ToggleLeaderboard(s: QuizState): (r: QuizState)
    ensures r.showLeaderboard == !s.showLeaderboard
    ensures r.currentQuestion == s.currentQuestion && r.selectedAnswer == s.selectedAnswer
    ensures r.showStats == s.showStats && r.showPointsWon == s.showPointsWon
  {
    s.(showLeaderboard := !s.showLeaderboard)
  }

  /** Toggling the leaderboard twice restores the state. */
  lemma ToggleTwice(s: QuizState)
    ensures ToggleLeaderboard(ToggleLeaderboard(s)) == s
  {
  }

  /** Selecting the same answer twice is the same as once, and selecting commutes
      with toggling the leaderboard. */
  lemma SelectIndependent(s: QuizState, index: int)
    ensures SelectAnswer(SelectAnswer(s, index), index) == SelectAnswer(s, index)
    ensures SelectAnswer(ToggleLeaderboard(s), index) == ToggleLeaderboard(SelectAnswer(s, index))
  {
  }

  /** The percentage shown beside each option of the current question, or nothing
      while the stats are hidden. */
  function OptionStats(stats: Stats, quiz: QuizState): (shown: seq<Option<int>>)
    requires quiz.currentQuestion < |QuizQuestions|
    requires AnswersValid(stats)
    ensures |shown| == |QuizQuestions[quiz.currentQuestion].options|
    ensures forall k :: 0 <= k < |shown| ==>
              (shown[k].Some? <==> quiz.showStats) && (shown[k].Some? ==> 0 <= shown[k].value <= 100)
  {
    var options := QuizQuestions[quiz.currentQuestion].options;
    seq(|options|, index requires 0 <= index < |options| =>
      if quiz.showStats then Some(stats.answers[index]) else None)
  }

  /** Every option of the question has a percentage to show after any run of
      updates from the initial stats. */
  lemma StatsAlwaysRenderable(ds: seq<Draws>, quiz: QuizState)
    requires forall k :: 0 <= k < |ds| ==> DrawsFit(ds[k], 4, 3)
    requires quiz.currentQuestion < |QuizQuestions|
    ensures AnswersValid(Run(MockStats, ds))
    ensures |OptionStats(Run(MockStats, ds), quiz)| == |QuizQuestions[quiz.currentQuestion].options|
  {
    RunKeepsInvariants(MockStats, ds);
  }
}
