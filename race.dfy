/**
  `RaceController`: remembers the first path declared the winner and the
  time of that declaration, and tells whether enough time has passed to
  restart. The clock reading is passed in as `now`.
*/
module Race {
  import opened Options

  /** Whether a restart is due `seconds` after a win recorded at `winnerTime`. */
  predicate RestartDue(winnerTime: Option<real>, now: real, seconds: real)
  {
    winnerTime.Some? && now - winnerTime.value >= seconds
  }

  /** Without a recorded win no restart is due; otherwise one is due exactly
      when `seconds` have passed. */
  lemma RestartDueIff(winnerTime: Option<real>, now: real, seconds: real)
    ensures winnerTime.None? ==> !RestartDue(winnerTime, now, seconds)
    ensures winnerTime.Some? ==> (RestartDue(winnerTime, now, seconds) <==> now >= winnerTime.value + seconds)
  {
  }

  /** Once due, a restart stays due as the clock moves on. */
  lemma RestartDueMonotone(winnerTime: Option<real>, now: real, later: real, seconds: real)
    requires now <= later && RestartDue(winnerTime, now, seconds)
    ensures RestartDue(winnerTime, later, seconds)
  {
  }

  class RaceController<P> {
    var winnerPath: Option<P>
    var winnerTime: Option<real>

    /** A win is recorded together with its time, or neither is. */
    predicate Valid()
      reads this
    {
      winnerPath.Some? <==> winnerTime.Some?
    }

    constructor ()
      ensures Valid() && winnerPath == None && winnerTime == None
    {
      winnerPath := None;
      winnerTime := None;
    }

    /** `get_winner`: the recorded winner, if any. */
    function GetWinner(): (w: Option<P>)
      reads this
      ensures w == winnerPath
    {
      winnerPath
    }

    /** `declare_winner(path)`: the first declaration is recorded with the
        time `now`; later ones change nothing. */
    method DeclareWinner(path: P, now: real)
      requires Valid()
      modifies this
      ensures Valid()
      ensures old(winnerPath).None? ==> winnerPath == Some(path) && winnerTime == Some(now)
      ensures old(winnerPath).Some? ==> winnerPath == old(winnerPath) && winnerTime == old(winnerTime)
    {
      if winnerPath.None? {
        winnerPath := Some(path);
        winnerTime := Some(now);
      }
    }

    /** `should_auto_restart(seconds)` at clock reading `now`. */
    function ShouldAutoRestart(now: real, seconds: real): (r: bool)
      reads this
      ensures r <==> winnerTime.Some? && now - winnerTime.value >= seconds
    {
      RestartDue(winnerTime, now, seconds)
    }
  }

  /** Two declarations in a row: the first path wins and keeps its time. */
  method FirstDeclarationWins<P>(c: RaceController<P>, first: P, second: P, t1: real, t2: real)
    requires c.Valid() && c.winnerPath.None?
    modifies c
    ensures c.GetWinner() == Some(first) && c.winnerTime == Some(t1)
  {
    c.DeclareWinner(first, t1);
    c.DeclareWinner(second, t2);
  }
}
