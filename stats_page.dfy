/** The stats page (src/pages/stats.tsx): how long ago something happened, and the
    verdict on whether the site's author is working, from the `/api/stats` body. */
module StatsPage {
  import opened Text
  import opened StatsApi

  const MinuteMs: int := 60000
  const HourMs: int := 3600000
  const DayMs: int := 86400000

  /** `timeAgo`: "—" without a timestamp; otherwise the whole minutes elapsed, shown as
      "just now" under one minute, then in minutes, hours or days, each rounded down.
      `/` rounds down here, as `Math.floor` does, for negative spans too. */
  function TimeAgo(stamp: Option<int>, now: int): string {
    if stamp.None? then "\U{2014}"
    else
      var mins := (now - stamp.value) / MinuteMs;
      if mins < 1 then "just now"
      else if mins < 60 then Decimal(mins) + "m ago"
      else
        var hrs := mins / 60;
        if hrs < 24 then Decimal(hrs) + "h ago"
        else Decimal(hrs / 24) + "d ago"
  }

  /** Rounding down to minutes and then to hours or days is rounding down to hours or days. */
  lemma FloorTwice(x: int)
    ensures (x / MinuteMs) / 60 == x / HourMs
    ensures ((x / MinuteMs) / 60) / 24 == x / DayMs
  {
    var m := x / MinuteMs;
    var h := m / 60;
    var d := h / 24;
    assert x == MinuteMs * m + x % MinuteMs;
    assert m == 60 * h + m % 60;
    assert h == 24 * d + h % 24;
    assert x == HourMs * h + (MinuteMs * (m % 60) + x % MinuteMs);
    assert x == DayMs * d + (HourMs * (h % 24) + MinuteMs * (m % 60) + x % MinuteMs);
  }

  /** Each bucket by elapsed milliseconds: under a minute (also a future time) is
      "just now", and otherwise the count is of whole minutes, hours or days. */
  lemma TimeAgoBuckets(t: int, now: int)
    ensures now - t < MinuteMs ==> TimeAgo(Some(t), now) == "just now"
    ensures MinuteMs <= now - t < HourMs ==> TimeAgo(Some(t), now) == Decimal((now - t) / MinuteMs) + "m ago"
    ensures HourMs <= now - t < DayMs ==> TimeAgo(Some(t), now) == Decimal((now - t) / HourMs) + "h ago"
    ensures DayMs <= now - t ==> TimeAgo(Some(t), now) == Decimal((now - t) / DayMs) + "d ago"
  {
    var ms := now - t;
    FloorTwice(ms);
    if ms < HourMs {
      assert ms / MinuteMs < 60;
    }
    if ms >= HourMs {
      assert ms / MinuteMs >= 60;
    }
    if ms < DayMs {
      assert ms / HourMs < 24;
    }
    if ms >= DayMs {
      assert ms / HourMs >= 24;
    }
  }

  /** The fields of the stats body the page reads, each possibly absent. */
  datatype PageView = PageView(deploymentsToday: Option<int>, lastDeploymentAt: Option<int>, lastCommitAt: Option<int>)

  const Busy := "WORKIN' HARD"
  const Idle := "HARDLY WORKIN'?"

  /** `verdict`: "…" until the stats arrive; then busy when there was a deployment today,
      a commit in the last 24 hours, or work mode is on. */
  function Verdict(stats: Option<PageView>, now: int, workMode: bool): string {
    if stats.None? then "\U{2026}"
    else
      var v := stats.value;
      var recentCommit := v.lastCommitAt.Some? && now - v.lastCommitAt.value < 24 * 60 * 60 * 1000;
      if v.deploymentsToday.GetOr(0) > 0 || recentCommit || workMode then Busy else Idle
  }

  /** The verdict never turns idle when there is more activity: more deployments today,
      a later commit, or a look taken earlier. Once the stats are in, work mode always
      wins, and there are only the two verdicts. */
  lemma VerdictMonotone(v: PageView, w: PageView, now: int, later: int, workMode: bool)
    requires w.deploymentsToday.GetOr(0) >= v.deploymentsToday.GetOr(0)
    requires v.lastCommitAt.Some? ==> w.lastCommitAt.Some? && w.lastCommitAt.value >= v.lastCommitAt.value
    requires now <= later
    ensures Verdict(Some(v), now, workMode) == Busy ==> Verdict(Some(w), now, workMode) == Busy
    ensures Verdict(Some(v), later, workMode) == Busy ==> Verdict(Some(v), now, workMode) == Busy
    ensures Verdict(Some(v), now, true) == Busy
    ensures Verdict(Some(v), now, workMode) in {Busy, Idle}
  {
  }

  /** The page as written reads `deploymentsToday`, `lastDeploymentAt` and `lastCommitAt`
      from the top level of the body, where the handler never puts them (they sit
      under `vercel` and `github`), so it always finds them absent. */
  function TopLevelFields(out: StatsOut): PageView {
    match out
    case ErrorOut(_, _) => PageView(None, None, None)
    case Report(_, _, _, _) => PageView(None, None, None)
  }

  /** As written, the verdict depends on work mode alone and the last deploy shows "—". */
  lemma TopLevelVerdictIgnoresActivity(out: StatsOut, now: int, workMode: bool)
    ensures Verdict(Some(TopLevelFields(out)), now, workMode) == (if workMode then Busy else Idle)
    ensures TimeAgo(TopLevelFields(out).lastDeploymentAt, now) == "\U{2014}"
  {
  }

  /** The fields where the handler puts them: the deployment figures under `vercel`,
      the commit time under `github`; an error body has none. */
  function ReportFields(out: StatsOut): PageView {
    match out
    case ErrorOut(_, _) => PageView(None, None, None)
    case Report(_, vercel, github, _) =>
      PageView(Some(vercel.deploymentsToday), vercel.lastDeploymentAt,
               if github.Some? then github.value.lastCommitAt else None)
  }

  /** Read from where the handler puts them, a deployment today or a recent commit
      makes the verdict busy, as the page's subtitle promises. */
  lemma ReportVerdictIff(out: StatsOut, now: int, workMode: bool)
    ensures Verdict(Some(ReportFields(out)), now, workMode) == Busy <==>
      || workMode
      || (out.Report? && out.vercel.deploymentsToday > 0)
      || (out.Report? && out.github.Some? && out.github.value.lastCommitAt.Some?
          && now - out.github.value.lastCommitAt.value < DayMs)
  {
  }

  /** A day with three deployments and work mode off: the page as written says idle,
      the fields read from where they are say busy. */
  lemma BusyDayExample(now: int)
    ensures var out := Report(now, VercelSummary(3, Some(now - 1000), Some("site.vercel.app"), None), None, None);
      && Verdict(Some(TopLevelFields(out)), now, false) == Idle
      && Verdict(Some(ReportFields(out)), now, false) == Busy
  {
  }
}
