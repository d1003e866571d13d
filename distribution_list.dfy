/** The distribution list of the administration pages: the status of a stored
    distribution as a small state machine driven by the pause/restart and stop
    buttons, and the progress figures shown for it. */
module DistributionList {
  import opened JsCore

  /** The five statuses the page knows. */
  predicate KnownStatus(s: string)
  {
    s == "active" || s == "completed" || s == "paused" || s == "stopped" || s == "expired"
  }

  /** The buttons for pause/restart and stop are shown only for these. */
  predicate Offered(s: string)
    ensures Offered(s) ==> KnownStatus(s) && s != "stopped"
  {
    s == "active" || s == "paused"
  }

  /** The status written by the pause/restart button. */
  function Toggled(s: string): (r: string)
    ensures r == "active" <==> s == "paused"
    ensures r == "paused" <==> s != "paused"
    ensures Offered(r)
  {
    if s == "paused" then "active" else "paused"
  }

  /** Pressing the pause/restart button twice from a status that offers it restores the status. */
  lemma ToggleTwice(s: string)
    requires Offered(s)
    ensures Toggled(Toggled(s)) == s
  {
  }

  datatype Action = TogglePause | Stop

  /** What pressing a button writes, when the page shows that button. */
  function Apply(s: string, a: Action): (r: string)
    ensures !Offered(s) ==> r == s
    ensures Offered(s) && a == Stop ==> r == "stopped"
    ensures Offered(s) && a == TogglePause ==> Offered(r) && r != s
  {
    if !Offered(s) then s
    else match a
      case TogglePause => Toggled(s)
      case Stop => "stopped"
  }

  /** A sequence of button presses: a known status stays known, and the buttons
      are offered at the end only when they were at the start. */
  function Run(s: string, acts: seq<Action>): (r: string)
    ensures KnownStatus(s) ==> KnownStatus(r)
    ensures Offered(r) ==> Offered(s)
    decreases |acts|
  {
    if |acts| == 0 then s else Run(Apply(s, acts[0]), acts[1..])
  }

  /** Completed, stopped and expired are terminal in the page: no sequence of
      presses changes them, and from any status only the starting status, the
      two offered ones and "stopped" are reachable. */
  lemma {:induction false} RunReach(s: string, acts: seq<Action>)
    ensures !Offered(s) ==> Run(s, acts) == s
    ensures Run(s, acts) == s || Offered(Run(s, acts)) || Run(s, acts) == "stopped"
    decreases |acts|
  {
    if |acts| > 0 {
      RunReach(Apply(s, acts[0]), acts[1..]);
    }
  }

  /** Once stopped, always stopped. */
  lemma StopIsFinal(s: string, acts: seq<Action>)
    requires Offered(s)
    ensures Run(Apply(s, Stop), acts) == "stopped"
  {
    RunReach("stopped", acts);
  }

  /** A stored distribution whose status the buttons rewrite. */
  class StoredDistribution {
    var status: string

    constructor (status: string)
      ensures this.status == status
    {
      this.status := status;
    }

    /** `handleTogglePause`: 'paused' becomes 'active', every other status 'paused'. */
    method TogglePause()
      modifies this
      ensures status == Toggled(old(status))
    {
      status := if status == "paused" then "active" else "paused";
    }

    /** `handleStop`: the status becomes 'stopped', whatever it was. */
    method Stop()
      modifies this
      ensures status == "stopped"
    {
      status := "stopped";
    }

    /** A button press as the page offers it: nothing happens for a status
        without buttons. */
    method Press(a: Action)
      modifies this
      ensures status == Apply(old(status), a)
    {
      if Offered(status) {
        match a
        case TogglePause => TogglePause();
        case Stop => Stop();
      }
    }
  }

  // ---------------------------------------------------------------- figures

  /** `calculateProgress`: 0 for a target that is not positive, otherwise the
      percentage of the target reached, capped at 100. */
  function Progress(current: real, target: real): (r: real)
    ensures r <= 100.0
    ensures target <= 0.0 ==> r == 0.0
  {
    if target <= 0.0 then 0.0
    else
      var progress := current / target * 100.0;
      if progress < 100.0 then progress else 100.0
  }

  /** For a positive target the progress is full exactly when the target is
      reached, and never negative. */
  lemma ProgressFull(current: real, target: real)
    requires target > 0.0
    ensures Progress(current, target) == 100.0 <==> current >= target
    ensures current >= 0.0 ==> Progress(current, target) >= 0.0
  {
    var q := current / target;
    assert q * target == current;
    assert Progress(current, target) == if q * 100.0 < 100.0 then q * 100.0 else 100.0;
    if q < 1.0 {
      assert q * target < 1.0 * target;
    } else {
      assert q * target >= 1.0 * target;
    }
    if current >= 0.0 {
      assert q >= 0.0;
    }
  }

  /** More responses never show less progress. */
  lemma ProgressMonotone(c1: real, c2: real, target: real)
    requires c1 <= c2
    ensures Progress(c1, target) <= Progress(c2, target)
  {
    if target > 0.0 {
      assert c1 / target <= c2 / target;
    }
  }

  datatype Slice = Slice(name: string, value: real)

  /** `createPieData`: the responses so far (missing counts as 0) and the
      remaining ones, never negative. */
  function PieData(current: Option<real>, target: real): (r: seq<Slice>)
    ensures |r| == 2 && r[0].name == "완료" && r[1].name == "미완료"
    ensures r[0].value == (if current.Some? then current.value else 0.0)
    ensures r[1].value >= 0.0
    ensures r[0].value + r[1].value == (if r[0].value < target then target else r[0].value)
  {
    var completed := if current.Some? && current.value != 0.0 then current.value else 0.0;
    var remaining := if 0.0 < target - completed then target - completed else 0.0;
    [Slice("완료", completed), Slice("미완료", remaining)]
  }

  /** `getStatusText`: the label of a known status; any other status is shown as it is. */
  function StatusText(s: string): (r: string)
    ensures !KnownStatus(s) <==> r == s
  {
    match s
    case "active" => "진행중"
    case "completed" => "완료됨"
    case "paused" => "일시정지"
    case "stopped" => "강제종료"
    case "expired" => "만료됨"
    case _ => s
  }

  /** Different known statuses get different labels. */
  lemma StatusTextDistinct(s: string, t: string)
    requires KnownStatus(s) && KnownStatus(t) && s != t
    ensures StatusText(s) != StatusText(t)
  {
  }

  /** `getStatusColor`: the colour of a known status, grey otherwise. */
  function StatusColor(s: string): (r: string)
    ensures !KnownStatus(s) <==> r == "#757575"
  {
    match s
    case "active" => "#4caf50"
    case "completed" => "#2196f3"
    case "paused" => "#ff9800"
    case "stopped" => "#f44336"
    case "expired" => "#9e9e9e"
    case _ => "#757575"
  }
}
