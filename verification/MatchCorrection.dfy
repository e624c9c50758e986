/** The correction window after a match: it closes an exact number of milliseconds after the finish. */
module MatchCorrection {
  import opened Results

  const MS_PER_DAY := 24 * 60 * 60 * 1000

  datatype CorrectionWindow = CorrectionWindow(open: bool, daysTotal: int, daysRemaining: int, closesAt: int)

  function CorrectionDeadline(finishedAt: int, windowDays: int): int {
    finishedAt + windowDays * MS_PER_DAY
  }

  predicate IsCorrectionWindowOpen(finishedAt: Option<int>, windowDays: int, now: int) {
    finishedAt.Some? && now < CorrectionDeadline(finishedAt.value, windowDays)
  }

  /** Math.ceil(a / b) for b > 0. */
  function CeilDiv(a: int, b: int): int
    requires b > 0
  {
    -((-a) / b)
  }

  function ComputeCorrectionWindow(finishedAt: Option<int>, windowDays: int, now: int): Option<CorrectionWindow> {
    if finishedAt.None? then None
    else
      var closesAt := CorrectionDeadline(finishedAt.value, windowDays);
      var open := now < closesAt;
      var remaining := closesAt - now;
      var days := CeilDiv(remaining, MS_PER_DAY);
      Some(CorrectionWindow(open, windowDays,
        if open && remaining > 0 then (if days < 1 then 1 else days) else 0, closesAt))
  }

  /** The days shown are positive exactly while corrections are accepted, and are then the least whole
      number of days that covers the time left: the lower bound of 1 never distorts them. */
  lemma DaysRemainingIsExact(finishedAt: int, windowDays: int, now: int)
    ensures var w := ComputeCorrectionWindow(Some(finishedAt), windowDays, now).value;
      && (w.open <==> IsCorrectionWindowOpen(Some(finishedAt), windowDays, now))
      && (w.open <==> w.daysRemaining > 0)
      && (w.open ==> (w.daysRemaining - 1) * MS_PER_DAY < w.closesAt - now <= w.daysRemaining * MS_PER_DAY)
  {
    var left := CorrectionDeadline(finishedAt, windowDays) - now;
    assert (-left) / MS_PER_DAY * MS_PER_DAY <= -left < (-left) / MS_PER_DAY * MS_PER_DAY + MS_PER_DAY;
  }
}
