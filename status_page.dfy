/** The public status page (app/status/page.tsx): the status→icon/label/style mappings,
    the overall status of the record list, and the day/hour/minute/second breakdown of
    the time elapsed since the fixed start date, computed with JavaScript's Math.floor and
    `%` on milliseconds. */
module StatusPage {
  import opened StatusStore

  /** getStatusText. */
  function StatusText(status: string): string
  {
    match status
    case "operational" => "正常运行"
    case "degraded" => "性能下降"
    case "down" => "服务中断"
    case _ => "未知"
  }

  /** The lucide icon and its colour chosen by getStatusIcon. */
  datatype Icon = GreenCheckCircle | YellowAlertCircle | RedXCircle | GrayActivity

  /** getStatusIcon. */
  function StatusIcon(status: string): Icon
  {
    match status
    case "operational" => GreenCheckCircle
    case "degraded" => YellowAlertCircle
    case "down" => RedXCircle
    case _ => GrayActivity
  }

  /** getStatusClass. */
  function StatusClass(status: string): string
  {
    match status
    case "operational" => "bg-green-500/10 border-green-500/30"
    case "degraded" => "bg-yellow-500/10 border-yellow-500/30"
    case "down" => "bg-red-500/10 border-red-500/30"
    case _ => "bg-gray-500/10 border-gray-500/30"
  }

  /** The three mappings are total: each known status has its own icon, label and style,
      and every other value falls to the gray default / 未知. The page's labels are the
      command-line tool's labels. */
  lemma StatusMappings(status: string)
    ensures status !in ValidStatuses <==> StatusIcon(status) == GrayActivity
    ensures status !in ValidStatuses <==> StatusClass(status) == "bg-gray-500/10 border-gray-500/30"
    ensures status !in ValidStatuses <==> StatusText(status) == "未知"
    ensures StatusText(status) == StatusLabel(status)
  {
    if status == "operational" {
    } else if status == "degraded" {
    } else if status == "down" {
    } else {
      assert status !in ValidStatuses;
    }
  }

  /** Distinct known statuses get distinct icons, styles and labels. */
  lemma StatusMappingsDistinct()
    ensures forall a, b :: a in ValidStatuses && b in ValidStatuses && a != b ==>
      StatusIcon(a) != StatusIcon(b) && StatusClass(a) != StatusClass(b) && StatusText(a) != StatusText(b)
  {
    forall a, b | a in ValidStatuses && b in ValidStatuses && a != b
      ensures StatusIcon(a) != StatusIcon(b) && StatusClass(a) != StatusClass(b) && StatusText(a) != StatusText(b)
    {
      assert a == "operational" || a == "degraded" || a == "down";
      assert b == "operational" || b == "degraded" || b == "down";
    }
  }

  /** statuses.every(s => s.status === 'operational'), front to back. */
  function EveryOperational(s: seq<Record>): (b: bool)
    ensures b <==> forall i :: 0 <= i < |s| ==> s[i].status == "operational"
  {
    if s == [] then true
    else
      assert forall i :: 0 < i < |s| ==> s[i] == s[1..][i - 1];
      s[0].status == "operational" && EveryOperational(s[1..])
  }

  /** overallStatus: 'operational' exactly when the list is non-empty and every record is
      operational; otherwise (including the empty list) 'degraded'. */
  function OverallStatus(s: seq<Record>): (r: string)
    ensures r == "operational" <==> |s| > 0 && forall i :: 0 <= i < |s| ==> s[i].status == "operational"
    ensures r != "operational" ==> r == "degraded"
  {
    if |s| > 0 && EveryOperational(s) then "operational" else "degraded"
  }

  const SecondMs: int := 1000
  const MinuteMs: int := 60 * 1000
  const HourMs: int := 60 * 60 * 1000
  const DayMs: int := 24 * 60 * 60 * 1000

  /** JavaScript's `%`: the remainder takes the sign of the dividend. */
  function JsRem(a: int, b: int): int
    requires b > 0
  {
    if a >= 0 then a % b else -((-a) % b)
  }

  /** Math.floor(a / b) for a positive divisor (Dafny's `/` on int already floors then). */
  function FloorDiv(a: int, b: int): int
    requires b > 0
  {
    a / b
  }

  datatype Elapsed = Elapsed(days: int, hours: int, minutes: int, seconds: int)

  /** The breakdown computed every second from `diff = now - startDate` in milliseconds. */
  function Breakdown(diff: int): Elapsed
  {
    Elapsed(FloorDiv(diff, DayMs),
            FloorDiv(JsRem(diff, DayMs), HourMs),
            FloorDiv(JsRem(diff, HourMs), MinuteMs),
            FloorDiv(JsRem(diff, MinuteMs), SecondMs))
  }

  /** Removing whole hours does not change the remainder modulo an hour. */
  lemma HourRemainder(q: int, r: int)
    requires q >= 0 && r >= 0
    ensures (q * 3600000 + r) % 3600000 == r % 3600000
  {
  }

  /** Removing whole minutes does not change the remainder modulo a minute. */
  lemma MinuteRemainder(q: int, r: int)
    requires q >= 0 && r >= 0
    ensures (q * 60000 + r) % 60000 == r % 60000
  {
  }

  /** For a non-negative elapsed time the parts are in range and add up to the elapsed
      time rounded down to the second. */
  lemma BreakdownInRange(diff: int)
    requires diff >= 0
    ensures var e := Breakdown(diff);
      e.days >= 0 && 0 <= e.hours < 24 && 0 <= e.minutes < 60 && 0 <= e.seconds < 60 &&
      e.days * DayMs + e.hours * HourMs + e.minutes * MinuteMs + e.seconds * SecondMs <= diff <
      e.days * DayMs + e.hours * HourMs + e.minutes * MinuteMs + e.seconds * SecondMs + 1000
  {
    var e := Breakdown(diff);
    var rd := diff % DayMs;
    assert diff == e.days * DayMs + rd;
    assert rd == e.hours * HourMs + rd % HourMs;
    // diff % HourMs == rd % HourMs because DayMs is a multiple of HourMs
    assert e.days * DayMs == (e.days * 24) * HourMs;
    HourRemainder(e.days * 24, rd);
    var rh := rd % HourMs;
    assert diff % HourMs == rh;
    assert rh == e.minutes * MinuteMs + rh % MinuteMs;
    assert (e.days * 24 * 60 + e.hours * 60) * MinuteMs == e.days * DayMs + e.hours * HourMs;
    MinuteRemainder(e.days * 24 * 60 + e.hours * 60, rh);
    var rm := rh % MinuteMs;
    assert diff % MinuteMs == rm;
    assert rm == e.seconds * SecondMs + rm % SecondMs;
    assert e.hours < 24 by { assert rd < DayMs; }
  }

  /** Before the start date (a clock set back) every part is zero or negative: the
      remainders are negative and Math.floor rounds them down, so each part can reach
      its negated bound. */
  lemma BreakdownBeforeStart(diff: int)
    requires diff < 0
    ensures var e := Breakdown(diff);
      e.days < 0 && -24 <= e.hours <= 0 && -60 <= e.minutes <= 0 && -60 <= e.seconds <= 0
  {
  }
}
