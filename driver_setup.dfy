/**
 * How `search_telegram` obtains a headless Chrome driver and releases it.
 *
 * Up to four constructor calls are tried in a fixed order (`service`,
 * `executable_path`, `positional`, `default`); the first three only when the
 * driver manager produced a non-empty path, `service` only when the Service
 * class could be imported. Each constructor call is an oracle that either
 * builds a driver or raises; every raised error is recorded, and when nothing
 * is built the errors are reported in one message. After navigation the
 * driver is quit exactly once, its own failure swallowed.
 */
module DriverSetup {
  import opened Wrappers
  import opened Text

  datatype Strategy = Service | ExecutablePath | Positional | Default

  /** The name recorded with a failure of the strategy. */
  function Name(s: Strategy): string
  {
    match s
    case Service => "service"
    case ExecutablePath => "executable_path"
    case Positional => "positional"
    case Default => "default"
  }

  /** The position of the strategy in the order of attempts. */
  function Rank(s: Strategy): nat
  {
    match s
    case Service => 0
    case ExecutablePath => 1
    case Positional => 2
    case Default => 3
  }

  /** What the driver manager gave: not importable, its `install()` raised, or a path. */
  datatype Install = ManagerUnavailable | InstallRaised(error: string) | Installed(path: string)

  /** The outcome of one `webdriver.Chrome(...)` call. */
  datatype Attempt<D> = Built(driver: D) | Raised(error: string)

  /** `if driver_path:`: a path was returned and it is not the empty string. */
  predicate PathResolved(install: Install)
  {
    install.Installed? && install.path != ""
  }

  /** The strategies that are eligible, in the order they are tried. */
  function Candidates(resolved: bool, serviceAvailable: bool): (plan: seq<Strategy>)
    ensures |plan| >= 1 && plan[|plan| - 1] == Default
  {
    (if resolved then (if serviceAvailable then [Service] else []) + [ExecutablePath, Positional] else [])
    + [Default]
  }

  /**
   * `default` is always eligible and always last; `service` only with a path
   * and an importable Service class; `executable_path` and `positional`
   * exactly when a path was resolved; the order is the fixed order of `Rank`.
   */
  lemma CandidatesSpec(resolved: bool, serviceAvailable: bool)
    ensures var plan := Candidates(resolved, serviceAvailable);
            && (Service in plan) == (resolved && serviceAvailable)
            && (ExecutablePath in plan) == resolved && (Positional in plan) == resolved
            && (Default in plan)
            && (!resolved ==> plan == [Default])
            && forall i, j :: 0 <= i < j < |plan| ==> Rank(plan[i]) < Rank(plan[j])
  {
  }

  /** Which strategies were tried, the driver if one was built, and the recorded failures. */
  datatype Acquisition<D> = Acquisition(driver: Option<D>, attempted: seq<Strategy>, errors: seq<(Strategy, string)>)

  /** Reference semantics: try `plan` in order and stop at the first success. */
  function Evaluate<D>(plan: seq<Strategy>, construct: Strategy -> Attempt<D>): Acquisition<D>
  {
    if |plan| == 0 then Acquisition(None, [], [])
    else
      match construct(plan[0])
      case Built(d) => Acquisition(Some(d), [plan[0]], [])
      case Raised(e) =>
        var rest := Evaluate(plan[1..], construct);
        Acquisition(rest.driver, [plan[0]] + rest.attempted, [(plan[0], e)] + rest.errors)
  }

  /**
   * The attempts are a prefix of the plan; every attempt but a successful last
   * one raised and left exactly one `(strategy, error)` entry, in attempt order;
   * a driver is returned exactly when some eligible strategy builds one, and it
   * is the first such.
   */
  lemma {:induction false} EvaluateSpec<D>(plan: seq<Strategy>, construct: Strategy -> Attempt<D>)
    ensures var r := Evaluate(plan, construct);
            && r.attempted <= plan
            && |r.errors| == |r.attempted| - (if r.driver.Some? then 1 else 0)
            && (forall i :: 0 <= i < |r.errors| ==>
                  construct(r.attempted[i]).Raised?
                  && r.errors[i] == (r.attempted[i], construct(r.attempted[i]).error))
            && (r.driver.Some? ==>
                  |r.attempted| >= 1
                  && construct(r.attempted[|r.attempted| - 1]) == Built(r.driver.value))
            && (r.driver.None? <==> forall i :: 0 <= i < |plan| ==> construct(plan[i]).Raised?)
            && (r.driver.None? ==> r.attempted == plan)
  {
    if |plan| > 0 && construct(plan[0]).Raised? {
      var rest := Evaluate(plan[1..], construct);
      EvaluateSpec(plan[1..], construct);
      var r := Evaluate(plan, construct);
      assert r.attempted == [plan[0]] + rest.attempted;
      assert [plan[0]] + plan[1..] == plan;
      forall i | 0 <= i < |r.errors|
        ensures construct(r.attempted[i]).Raised?
             && r.errors[i] == (r.attempted[i], construct(r.attempted[i]).error)
      {
        if i > 0 {
          assert r.errors[i] == rest.errors[i - 1] && r.attempted[i] == rest.attempted[i - 1];
        }
      }
      if (forall i :: 0 <= i < |plan| - 1 ==> construct(plan[1..][i]).Raised?) {
        forall i | 0 <= i < |plan| ensures construct(plan[i]).Raised? {
          if i > 0 { assert plan[i] == plan[1..][i - 1]; }
        }
      }
    }
  }

  /** When everything before the last strategy raises, all of the plan is tried
      and the outcome is that of the last strategy. */
  lemma {:induction false} EvaluateLastStanding<D>(plan: seq<Strategy>, construct: Strategy -> Attempt<D>)
    requires |plan| >= 1
    requires forall i :: 0 <= i < |plan| - 1 ==> construct(plan[i]).Raised?
    ensures Evaluate(plan, construct).attempted == plan
    ensures Evaluate(plan, construct).driver
         == (if construct(plan[|plan| - 1]).Built? then Some(construct(plan[|plan| - 1]).driver) else None)
  {
    if |plan| > 1 {
      assert construct(plan[0]).Raised?;
      EvaluateLastStanding(plan[1..], construct);
      assert [plan[0]] + plan[1..] == plan;
    }
  }

  /** When every path-based strategy fails, the default one is still tried, and
      if it builds a driver that driver is used. */
  lemma DefaultIsLastResort<D>(resolved: bool, serviceAvailable: bool, construct: Strategy -> Attempt<D>)
    requires forall s :: s != Default ==> construct(s).Raised?
    ensures var r := Evaluate(Candidates(resolved, serviceAvailable), construct);
            && r.attempted == Candidates(resolved, serviceAvailable)
            && r.driver == (if construct(Default).Built? then Some(construct(Default).driver) else None)
  {
    var plan := Candidates(resolved, serviceAvailable);
    CandidatesSpec(resolved, serviceAvailable);
    forall i | 0 <= i < |plan| - 1 ensures construct(plan[i]).Raised? {
      assert Rank(plan[i]) < Rank(plan[|plan| - 1]);
    }
    EvaluateLastStanding(plan, construct);
  }

  /** The state after some attempts agrees with `Evaluate(plan)` once the
      strategies in `remaining` are evaluated. */
  ghost predicate Continues<D>(plan: seq<Strategy>, remaining: seq<Strategy>, construct: Strategy -> Attempt<D>,
                               driver: Option<D>, attempted: seq<Strategy>, errors: seq<(Strategy, string)>)
  {
    if driver.Some? then Evaluate(plan, construct) == Acquisition(driver, attempted, errors)
    else
      var r := Evaluate(remaining, construct);
      Evaluate(plan, construct) == Acquisition(r.driver, attempted + r.attempted, errors + r.errors)
  }

  lemma ContinuesStep<D>(plan: seq<Strategy>, remaining: seq<Strategy>, construct: Strategy -> Attempt<D>,
                         attempted: seq<Strategy>, errors: seq<(Strategy, string)>)
    requires |remaining| >= 1
    requires Continues(plan, remaining, construct, None, attempted, errors)
    ensures var s, rest := remaining[0], remaining[1..];
            construct(s).Built? ==>
              Continues(plan, rest, construct, Some(construct(s).driver), attempted + [s], errors)
    ensures var s, rest := remaining[0], remaining[1..];
            construct(s).Raised? ==>
              Continues(plan, rest, construct, None, attempted + [s], errors + [(s, construct(s).error)])
  {
    var s, rest := remaining[0], remaining[1..];
    var r := Evaluate(rest, construct);
    assert attempted + ([s] + r.attempted) == attempted + [s] + r.attempted;
    if construct(s).Raised? {
      assert errors + ([(s, construct(s).error)] + r.errors) == errors + [(s, construct(s).error)] + r.errors;
    }
  }

  /**
   * The four guarded constructor calls, as written: the `driver` variable is
   * reassigned by the first that succeeds, every failure is appended to
   * `errors`. `attempted` records which constructors were called.
   */
  method AcquireDriver<D>(install: Install, serviceAvailable: bool, construct: Strategy -> Attempt<D>)
    returns (driver: Option<D>, attempted: seq<Strategy>, errors: seq<(Strategy, string)>)
    ensures Acquisition(driver, attempted, errors)
         == Evaluate(Candidates(PathResolved(install), serviceAvailable), construct)
  {
    // an exception from install() leaves driver_path as None
    var driverPath: Option<string> := if install.Installed? then Some(install.path) else None;
    driver, attempted, errors := None, [], [];
    ghost var plan := Candidates(PathResolved(install), serviceAvailable);
    ghost var remaining := plan;
    assert PathResolved(install) == (driverPath.Some? && driverPath.value != "");
    assert Continues(plan, remaining, construct, driver, attempted, errors) by {
      assert attempted + Evaluate(plan, construct).attempted == Evaluate(plan, construct).attempted;
      assert errors + Evaluate(plan, construct).errors == Evaluate(plan, construct).errors;
    }
    if driverPath.Some? && driverPath.value != "" {
      if serviceAvailable {
        assert remaining[0] == Service;
        ContinuesStep(plan, remaining, construct, attempted, errors);
        remaining := remaining[1..];
        attempted := attempted + [Service];
        match construct(Service) {
          case Built(d) => driver := Some(d);
          case Raised(e) => errors := errors + [(Service, e)];
        }
      }
      if driver.None? {
        assert remaining[0] == ExecutablePath;
        ContinuesStep(plan, remaining, construct, attempted, errors);
        remaining := remaining[1..];
        attempted := attempted + [ExecutablePath];
        match construct(ExecutablePath) {
          case Built(d) => driver := Some(d);
          case Raised(e) => errors := errors + [(ExecutablePath, e)];
        }
      }
      if driver.None? {
        assert remaining[0] == Positional;
        ContinuesStep(plan, remaining, construct, attempted, errors);
        remaining := remaining[1..];
        attempted := attempted + [Positional];
        match construct(Positional) {
          case Built(d) => driver := Some(d);
          case Raised(e) => errors := errors + [(Positional, e)];
        }
      }
    }
    if driver.None? {
      assert remaining[0] == Default;
      ContinuesStep(plan, remaining, construct, attempted, errors);
      remaining := remaining[1..];
      attempted := attempted + [Default];
      match construct(Default) {
        case Built(d) => driver := Some(d);
        case Raised(e) => errors := errors + [(Default, e)];
      }
    }
  }

  // ---------------------------------------------------------------------------
  // The consolidated error.

  const ReportHeader: string := "无法初始化 Chrome driver，尝试的方式和错误："

  /** ` - name: error`. */
  function ReportLine(entry: (Strategy, string)): string
  {
    " - " + Name(entry.0) + ": " + entry.1
  }

  /** The message of the `RuntimeError` raised when no driver was built. */
  function ErrorReport(errors: seq<(Strategy, string)>): string
  {
    Join([ReportHeader] + seq(|errors|, i requires 0 <= i < |errors| => ReportLine(errors[i])), '\n')
  }

  /** The header, then one line per failure in order; read back line by line
      when no error text spans several lines. */
  lemma ErrorReportLines(errors: seq<(Strategy, string)>)
    requires forall i :: 0 <= i < |errors| ==> '\n' !in errors[i].1
    ensures var lines := Split(ErrorReport(errors), '\n');
            && |lines| == |errors| + 1
            && lines[0] == ReportHeader
            && forall i :: 0 <= i < |errors| ==> lines[i + 1] == " - " + Name(errors[i].0) + ": " + errors[i].1
  {
    var lines := [ReportHeader] + seq(|errors|, i requires 0 <= i < |errors| => ReportLine(errors[i]));
    forall k | 0 <= k < |lines| ensures '\n' !in lines[k] {
      if k > 0 {
        assert lines[k] == " - " + Name(errors[k - 1].0) + ": " + errors[k - 1].1;
      }
    }
    SplitJoin(lines, '\n');
  }

  /** `msg_lines` built by the loop over `errors`, then `"\n".join(msg_lines)`. */
  method ConsolidateErrors(errors: seq<(Strategy, string)>) returns (message: string)
    ensures message == ErrorReport(errors)
  {
    var msgLines: seq<string> := [ReportHeader];
    for i := 0 to |errors|
      invariant msgLines == [ReportHeader] + seq(i, k requires 0 <= k < i => ReportLine(errors[k]))
    {
      var (k, v) := errors[i];
      msgLines := msgLines + [" - " + Name(k) + ": " + v];
    }
    message := Join(msgLines, '\n');
  }

  // ---------------------------------------------------------------------------
  // Navigation inside try/finally.

  /** `driver.get(url)` followed by reading `page_source`: the markup, or the error raised. */
  datatype Navigation = Rendered(html: string) | NavRaised(error: string)

  /** A call made on the Selenium side, in the order made. */
  datatype DriverCall = Construct(strategy: Strategy) | Get(url: string) | Quit

  /**
   * Navigate, then quit in `finally`: quit is the last call and is made exactly
   * once whatever navigation did; a failing quit changes nothing, and a
   * navigation error comes out unchanged.
   */
  method FetchRendered(url: string, navigate: string -> Navigation, quitRaises: bool)
    returns (page: Result<string, string>, calls: seq<DriverCall>)
    ensures calls == [Get(url), Quit]
    ensures navigate(url).Rendered? ==> page == Ok(navigate(url).html)
    ensures navigate(url).NavRaised? ==> page == Err(navigate(url).error)
  {
    calls := [Get(url)];
    match navigate(url) {
      case Rendered(html) => page := Ok(html);
      case NavRaised(e) => page := Err(e);
    }
    // finally: quit; whatever it raises (`quitRaises`) is swallowed
    calls := calls + [Quit];
  }
}
