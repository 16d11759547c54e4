/** The focus timer as pure transitions on a session value: the seconds left,
    whether focus mode is on, and the engagement score counted in half points
    (a completed session is worth one point, a saved journal entry half a
    point). */
module Focus {

  datatype Session = Session(seconds: nat, focusing: bool, halves: nat)

  /** Half points a completed focus session adds to the score. */
  const SessionReward: nat := 2

  /** `startFocus(minutes)`. */
  function Start(s: Session, minutes: nat): (r: Session)
    ensures r.seconds == minutes * 60 && r.focusing && r.halves == s.halves
  {
    s.(seconds := minutes * 60, focusing := true)
  }

  /** `stopFocus()`: the countdown keeps its value. */
  function Stop(s: Session): (r: Session)
    ensures !r.focusing && r.seconds == s.seconds && r.halves == s.halves
  {
    s.(focusing := false)
  }

  /** One run of the interval's updater: count down, or, at one second or
      less, end the session at zero and reward it. */
  function Tick(s: Session): (r: Session)
    ensures s.seconds > 1 ==> r == s.(seconds := s.seconds - 1)
    ensures s.seconds <= 1 ==> r == Session(0, false, s.halves + SessionReward)
  {
    if s.seconds <= 1 then Session(0, false, s.halves + SessionReward)
    else s.(seconds := s.seconds - 1)
  }

  /** One second of wall time: the interval only exists while focusing. */
  function Second(s: Session): (r: Session)
    ensures !s.focusing ==> r == s
    ensures r.seconds <= s.seconds && r.halves >= s.halves
    ensures r.halves > s.halves ==> s.focusing && s.seconds <= 1 && !r.focusing && r.seconds == 0
  {
    if s.focusing then Tick(s) else s
  }

  /** `k` seconds of wall time. The countdown never grows and the score never
      shrinks. */
  function Elapse(s: Session, k: nat): (r: Session)
    ensures r.seconds <= s.seconds
    ensures r.halves >= s.halves
    decreases k
  {
    if k == 0 then s else Elapse(Second(s), k - 1)
  }

  /** Before the countdown reaches one, each second takes one off it and
      nothing else changes. */
  lemma {:induction false} CountsDown(seconds: nat, halves: nat, k: nat)
    requires k < seconds
    ensures Elapse(Session(seconds, true, halves), k) == Session(seconds - k, true, halves)
  {
    if k > 0 {
      assert Second(Session(seconds, true, halves)) == Session(seconds - 1, true, halves);
      CountsDown(seconds - 1, halves, k - 1);
    }
  }

  /** A stopped timer stays exactly as it is, however long one waits. */
  lemma {:induction false} IdleIsFrozen(s: Session, k: nat)
    requires !s.focusing
    ensures Elapse(s, k) == s
  {
    if k > 0 {
      IdleIsFrozen(s, k - 1);
    }
  }

  /** A session of `seconds` seconds ends once that much time has passed (a
      zero-second one after one tick), and its reward is paid exactly once
      however much longer one waits. */
  lemma {:induction false} CompletesOnce(seconds: nat, halves: nat, k: nat)
    requires k >= seconds && k >= 1
    ensures Elapse(Session(seconds, true, halves), k) == Session(0, false, halves + SessionReward)
  {
    var start := Session(seconds, true, halves);
    var done := Session(0, false, halves + SessionReward);
    if seconds <= 1 {
      assert Second(start) == done;
      IdleIsFrozen(done, k - 1);
    } else {
      CountsDown(seconds, halves, seconds - 1);
      ElapseSplit(start, seconds - 1, k - (seconds - 1));
      var last := Session(1, true, halves);
      assert Second(last) == done;
      IdleIsFrozen(done, k - seconds);
    }
  }

  lemma {:induction false} ElapseSplit(s: Session, j: nat, k: nat)
    ensures Elapse(s, j + k) == Elapse(Elapse(s, j), k)
    decreases j
  {
    if j > 0 {
      ElapseSplit(Second(s), j - 1, k);
    }
  }

  /** Starting a session of `minutes` minutes from any state and letting
      exactly `minutes * 60` seconds pass ends it with one point more. */
  lemma FullSession(s: Session, minutes: nat)
    requires minutes >= 1
    ensures Elapse(Start(s, minutes), minutes * 60) == Session(0, false, s.halves + SessionReward)
  {
    CompletesOnce(minutes * 60, s.halves, minutes * 60);
  }

  /** Stopping part-way keeps the seconds left and no later second moves them
      or the score. */
  lemma StopFreezes(s: Session, minutes: nat, k: nat, later: nat)
    requires k < minutes * 60
    ensures Elapse(Stop(Elapse(Start(s, minutes), k)), later) ==
      Session(minutes * 60 - k, false, s.halves)
  {
    CountsDown(minutes * 60, s.halves, k);
    IdleIsFrozen(Stop(Elapse(Start(s, minutes), k)), later);
  }
}
