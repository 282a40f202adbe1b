/** The controller bookkeeping of `ParallelSession` in
    `dps/parallel/submit_job.py`: parsing durations, naming the job directory,
    recruiting and staging hosts, planning steps, and the retry loop that runs
    the incomplete operations until none remain.

    Every shell command is an oracle: `Exits` gives the exit code a command
    returns on a host. The clock, `parse_date` and the job archive are inputs
    too: the seconds until a parsed deadline, and, for each step, the sorted
    indices of the operations the merged results still list as incomplete. */
module SubmitJob {
  import opened Wrappers
  import opened Strings
  import opened Arith

  // ---------------------------------------------------------------- parse_timedelta

  /** `[int(i) for i in parts]`; `None` when some piece is not an integer. */
  function ParseAll(parts: seq<string>): (r: Option<seq<int>>)
    ensures r.Some? ==> |r.value| == |parts| && forall i :: 0 <= i < |parts| ==> ParseInt(parts[i]) == Some(r.value[i])
    ensures r.None? ==> exists i :: 0 <= i < |parts| && ParseInt(parts[i]).None?
  {
    if parts == [] then Some([])
    else
      var head := ParseInt(parts[0]);
      var rest := ParseAll(parts[1..]);
      if head.None? then None
      else if rest.None? then
        var i :| 0 <= i < |parts[1..]| && ParseInt(parts[1..][i]).None?;
        assert ParseInt(parts[i + 1]).None?;
        None
      else Some([head.value] + rest.value)
  }

  /** `parse_timedelta(s)` in seconds: `s.split(":")`, every piece read as an
      integer (hours, minutes, seconds; later pieces are ignored). */
  function ParseTimedelta(s: string): Result<int>
  {
    Seconds(ParseAll(Split(s, ':')))
  }

  /** `timedelta(hours=args[0], minutes=args[1], seconds=args[2])` in seconds. */
  function Seconds(args: Option<seq<int>>): Result<int>
  {
    match args
    case None => Err("ValueError")
    case Some(args) =>
      if |args| < 3 then Err("IndexError")
      else Ok(args[0] * 3600 + args[1] * 60 + args[2])
  }

  lemma NoColonInShow(n: int)
    ensures ':' !in Show(n)
  {
    var d := ShowNat(if n < 0 then -n else n);
    assert forall i :: 0 <= i < |d| ==> IsDigit(d[i]);
    if n < 0 {
      assert Show(n) == "-" + d;
      assert forall i :: 0 <= i < |Show(n)| ==> Show(n)[i] == '-' || IsDigit(Show(n)[i]);
    }
  }

  lemma SplitHMS(h: int, m: int, s: int)
    ensures Split(Show(h) + ":" + Show(m) + ":" + Show(s), ':') == [Show(h), Show(m), Show(s)]
  {
    NoColonInShow(h);
    NoColonInShow(m);
    NoColonInShow(s);
    var text := Show(h) + ":" + Show(m) + ":" + Show(s);
    assert text == Show(h) + [':'] + (Show(m) + [':'] + Show(s));
    SplitAtSep(Show(h), Show(m) + [':'] + Show(s), ':');
    SplitAtSep(Show(m), Show(s), ':');
    SplitNoSep(Show(s), ':');
  }

  lemma ParseThree(a: string, b: string, c: string, x: int, y: int, z: int)
    requires ParseInt(a) == Some(x) && ParseInt(b) == Some(y) && ParseInt(c) == Some(z)
    ensures ParseAll([a, b, c]) == Some([x, y, z])
  {
    assert [c][1..] == [];
    assert ParseAll([c][1..]) == Some([]);
    assert [c][0] == c;
    assert [z] + [] == [z];
    assert ParseAll([c]) == Some([z]);
    assert [b, c][1..] == [c];
    assert ParseAll([b, c][1..]) == Some([z]);
    assert [b, c][0] == b && [y] + [z] == [y, z];
    assert ParseAll([b, c]) == Some([y, z]);
    assert [a, b, c][1..] == [b, c];
    assert ParseAll([a, b, c][1..]) == Some([y, z]);
    assert [a, b, c][0] == a && [x] + [y, z] == [x, y, z];
  }

  lemma ParseTimedeltaOf(text: string, a: string, b: string, c: string, x: int, y: int, z: int)
    requires Split(text, ':') == [a, b, c] && ParseAll([a, b, c]) == Some([x, y, z])
    ensures ParseTimedelta(text) == Ok(x * 3600 + y * 60 + z)
  {
    var args := [x, y, z];
    assert args[0] == x && args[1] == y && args[2] == z;
    SecondsOf(args, x, y, z);
  }

  lemma SecondsOf(args: seq<int>, x: int, y: int, z: int)
    requires |args| == 3 && args[0] == x && args[1] == y && args[2] == z
    ensures Seconds(Some(args)) == Ok(x * 3600 + y * 60 + z)
  {
  }

  /** "H:M:S" is `H*3600 + M*60 + S` seconds. */
  lemma ParseTimedeltaHMS(h: int, m: int, s: int)
    ensures ParseTimedelta(Show(h) + ":" + Show(m) + ":" + Show(s)) == Ok(h * 3600 + m * 60 + s)
  {
    SplitHMS(h, m, s);
    ParseShow(h);
    ParseShow(m);
    ParseShow(s);
    ParseThree(Show(h), Show(m), Show(s), h, m, s);
    ParseTimedeltaOf(Show(h) + ":" + Show(m) + ":" + Show(s), Show(h), Show(m), Show(s), h, m, s);
  }

  /** Text with fewer than two ':' never parses. */
  lemma ParseTimedeltaShort(s: string)
    requires CountChar(s, ':') < 2
    ensures ParseTimedelta(s).Err?
  {
    SplitPieces(s, ':');
  }

  // ---------------------------------------------------------------- make_directory_name

  /** `os.path.join(a, b)` */
  function PathJoin(a: string, b: string): string
  {
    if b != [] && b[0] == '/' then b
    else if a == [] || a[|a| - 1] == '/' then a + b
    else a + "/" + b
  }

  /** `str(datetime.now()).split('.')[0]` with ':', ' ' and '-' each replaced by '_'. */
  function DateStamp(now: string): string
  {
    ReplaceChar(ReplaceChar(ReplaceChar(Split(now, '.')[0], ':', '_'), ' ', '_'), '-', '_')
  }

  /** `make_directory_name(experiments_dir, network_name, add_date)`, `now` the
      text of the current time. */
  function MakeDirectoryName(dir: string, name: string, addDate: bool, now: string): string
  {
    if addDate then PathJoin(dir, name + "_") + DateStamp(now) else PathJoin(dir, name)
  }

  /** With the date added, the name ends in the time up to its fraction of a
      second, each ':', ' ' and '-' turned into '_' and every other character kept. */
  lemma DirectoryNameStamp(dir: string, name: string, now: string)
    ensures var whole := Split(now, '.')[0];
      var r := MakeDirectoryName(dir, name, true, now);
      var n := |PathJoin(dir, name + "_")|;
      && |r| == n + |whole|
      && r[..n] == PathJoin(dir, name + "_")
      && '.' !in r[n..]
      && forall i :: 0 <= i < |whole| ==>
           r[n + i] == if whole[i] in {':', ' ', '-'} then '_' else whole[i]
  {
    SplitPieces(now, '.');
    var r := MakeDirectoryName(dir, name, true, now);
    var n := |PathJoin(dir, name + "_")|;
    assert r[n..] == DateStamp(now);
  }

  // ---------------------------------------------------------------- execute_command

  /** The value `execute_command` returns for a command that exits with `code`:
      0 on success; on failure the code when `robust`, else `CalledProcessError`. */
  function ExecuteCommand(code: int, robust: bool): (r: Result<int>)
    ensures r.Ok? <==> code == 0 || robust
    ensures r.Ok? ==> r.value == code
    ensures r == Ok(0) <==> code == 0
  {
    if code == 0 then Ok(0)
    else if robust then Ok(code)
    else Err("CalledProcessError")
  }

  // ---------------------------------------------------------------- the time budget

  /** The wall time and cleanup time in seconds, as `__init__` reads them:
      `cleanup_time` must parse; `wall_time` is a duration, or else a date whose
      distance from now is `untilDeadline` (`None` when it does not parse either). */
  function TimeBudget(wallTime: string, untilDeadline: Option<int>, cleanupTime: string): (r: Result<(int, int)>)
    ensures ParseTimedelta(cleanupTime).Err? ==> r.Err?
    ensures r.Ok? ==> r.value.1 == ParseTimedelta(cleanupTime).value && r.value.1 <= r.value.0
    ensures r.Ok? && ParseTimedelta(wallTime).Ok? ==> r.value.0 == ParseTimedelta(wallTime).value
    ensures r.Ok? && ParseTimedelta(wallTime).Err? ==> untilDeadline == Some(r.value.0) && r.value.0 >= 0
    ensures ParseTimedelta(wallTime).Err? && untilDeadline.Some? && untilDeadline.value < 0 ==> r.Err?
  {
    match ParseTimedelta(cleanupTime)
    case Err(e) => Err(e)
    case Ok(cleanup) =>
      var wall :=
        match ParseTimedelta(wallTime)
        case Ok(w) => Ok(w)
        case Err(_) =>
          match untilDeadline
          case None => Err("ValueError")
          case Some(d) => if d < 0 then Err("Exception") else Ok(d);
      if wall.Err? then Err(wall.error)
      else if cleanup > wall.value then Err("Exception")
      else Ok((wall.value, cleanup))
  }

  // ---------------------------------------------------------------- step planning

  datatype Plan = Plan(hosts: seq<string>, nProcs: nat, nSteps: nat,
                       executionTime: int, absSecondsPerStep: int, secondsPerStep: int)

  /** The time per step, and the assertions that it is positive. */
  function Timed(hosts: seq<string>, nProcs: nat, nSteps: nat, wall: int, cleanup: int, slack: int): (r: Result<Plan>)
    requires nSteps > 0
  {
    var execution := wall - cleanup;
    var abs := execution / nSteps;
    var perStep := abs - slack;
    if execution <= 0 || abs <= 0 || perStep <= 0 then Err("AssertionError")
    else Ok(Plan(hosts, nProcs, nSteps, execution, abs, perStep))
  }

  /** The planning part of `ParallelSession.__init__`, for `nJobs` incomplete
      operations and the recruited `hosts` of `ppn` processors each. */
  function PlanSteps(nJobs: nat, hosts: seq<string>, ppn: nat, wall: int, cleanup: int, slack: int): Result<Plan>
    requires nJobs > 0
  {
    var nProcs := ppn * |hosts|;
    if nJobs < nProcs then
      var nNodes := CeilDiv(nJobs, ppn);
      assert nNodes <= |hosts| by {
        if nNodes > |hosts| { MulMonotone(|hosts|, nNodes - 1, ppn); }
      }
      Timed(hosts[..nNodes], nNodes * ppn, 1, wall, cleanup, slack)
    else if nProcs == 0 then Err("ZeroDivisionError")
    else Timed(hosts, nProcs, CeilDiv(nJobs, nProcs), wall, cleanup, slack)
  }

  lemma TimedFits(hosts: seq<string>, nProcs: nat, nSteps: nat, wall: int, cleanup: int, slack: int)
    requires nSteps > 0 && Timed(hosts, nProcs, nSteps, wall, cleanup, slack).Ok?
    ensures var p := Timed(hosts, nProcs, nSteps, wall, cleanup, slack).value;
      && p.hosts == hosts && p.nProcs == nProcs && p.nSteps == nSteps
      && p.secondsPerStep > 0 && nSteps * (p.secondsPerStep + slack) <= wall - cleanup
  {
    var execution := wall - cleanup;
    assert execution == nSteps * (execution / nSteps) + execution % nSteps;
  }

  lemma PlanFitsFew(nJobs: nat, hosts: seq<string>, ppn: nat, wall: int, cleanup: int, slack: int)
    requires 0 < nJobs < ppn * |hosts|
    requires PlanSteps(nJobs, hosts, ppn, wall, cleanup, slack).Ok?
    ensures var p := PlanSteps(nJobs, hosts, ppn, wall, cleanup, slack).value;
      && p.nSteps == 1 && p.nProcs == ppn * |p.hosts| && p.hosts == hosts[..|p.hosts|]
      && (|p.hosts| - 1) * ppn < nJobs <= p.nProcs
      && p.secondsPerStep > 0 && p.secondsPerStep + slack <= wall - cleanup
  {
    var nNodes := CeilDiv(nJobs, ppn);
    assert nNodes <= |hosts| by {
      if nNodes > |hosts| { MulMonotone(|hosts|, nNodes - 1, ppn); }
    }
    TimedFits(hosts[..nNodes], nNodes * ppn, 1, wall, cleanup, slack);
  }

  lemma PlanFitsMany(nJobs: nat, hosts: seq<string>, ppn: nat, wall: int, cleanup: int, slack: int)
    requires 0 < ppn * |hosts| <= nJobs
    requires PlanSteps(nJobs, hosts, ppn, wall, cleanup, slack).Ok?
    ensures var p := PlanSteps(nJobs, hosts, ppn, wall, cleanup, slack).value;
      && p.hosts == hosts && p.nProcs == ppn * |hosts| && p.nSteps >= 1
      && (p.nSteps - 1) * p.nProcs < nJobs <= p.nSteps * p.nProcs
      && p.secondsPerStep > 0 && p.nSteps * (p.secondsPerStep + slack) <= wall - cleanup
  {
    TimedFits(hosts, ppn * |hosts|, CeilDiv(nJobs, ppn * |hosts|), wall, cleanup, slack);
  }

  /** A plan gives every operation a processor in some step, with no step to
      spare; uses a prefix of the hosts, all of their processors; and fits the
      steps, each with its slack, into the time left after cleanup. With fewer
      operations than processors there is one step on as few hosts as hold them. */
  lemma PlanFits(nJobs: nat, hosts: seq<string>, ppn: nat, wall: int, cleanup: int, slack: int)
    requires nJobs > 0
    requires PlanSteps(nJobs, hosts, ppn, wall, cleanup, slack).Ok?
    ensures var p := PlanSteps(nJobs, hosts, ppn, wall, cleanup, slack).value;
      && p.nSteps >= 1 && p.nProcs > 0
      && (p.nSteps - 1) * p.nProcs < nJobs <= p.nSteps * p.nProcs
      && p.hosts == hosts[..|p.hosts|] && p.nProcs == ppn * |p.hosts|
      && p.secondsPerStep > 0 && p.nSteps * (p.secondsPerStep + slack) <= wall - cleanup
      && (nJobs < ppn * |hosts| ==> p.nSteps == 1 && (|p.hosts| - 1) * ppn < nJobs)
  {
    if nJobs < ppn * |hosts| {
      PlanFitsFew(nJobs, hosts, ppn, wall, cleanup, slack);
    } else {
      PlanFitsMany(nJobs, hosts, ppn, wall, cleanup, slack);
      assert hosts[..|hosts|] == hosts;
    }
  }

  /** With no host recruited there is no plan. */
  lemma NoHostsNoPlan(nJobs: nat, ppn: nat, wall: int, cleanup: int, slack: int)
    requires nJobs > 0
    ensures PlanSteps(nJobs, [], ppn, wall, cleanup, slack) == Err("ZeroDivisionError")
  {
  }

  // ---------------------------------------------------------------- staging a host

  /** The commands recruiting runs for a host: the connection test, then the
      staging of the archive in the host's local scratch directory. */
  datatype Cmd = Echo | StatScratch | Mkdir | StatArchive | StatZip | Copy | Unzip

  /** Exit code of each command on each host. */
  type Exits = (string, Cmd) -> int

  /** The host that stands for the local machine. */
  const Local: string := ":"

  /** Preparation succeeds: a missing scratch directory is created, and a
      missing unpacked archive is unzipped, from a zip copied there first if it
      is missing too. */
  predicate Prepared(host: string, ex: Exits)
  {
    && (ex(host, StatScratch) != 0 ==> ex(host, Mkdir) == 0)
    && (ex(host, StatArchive) != 0 ==>
          (ex(host, StatZip) != 0 ==> ex(host, Copy) == 0) && ex(host, Unzip) == 0)
  }

  /** A host is recruited when it answers (the local host is not probed) and its preparation succeeds. */
  predicate Usable(host: string, ex: Exits)
  {
    (host == Local || ex(host, Echo) == 0) && Prepared(host, ex)
  }

  /** The `try` block of `recruit_hosts` for one host: the `stat` probes are
      robust, `mkdir`, the copy and the unzip are not, and the first of those
      to fail ends the preparation. Returns the commands run, in order. */
  method PrepareHost(host: string, ex: Exits) returns (ran: seq<Cmd>, ok: bool)
    ensures ok <==> Prepared(host, ex)
    ensures |ran| > 0 && ran[0] == StatScratch && Echo !in ran
    ensures Mkdir in ran <==> ex(host, StatScratch) != 0
    ensures StatArchive in ran <==> ex(host, StatScratch) == 0 || ex(host, Mkdir) == 0
    ensures Copy in ran <==> StatArchive in ran && ex(host, StatArchive) != 0 && ex(host, StatZip) != 0
    ensures Unzip in ran <==> StatArchive in ran && ex(host, StatArchive) != 0 && (ex(host, StatZip) == 0 || ex(host, Copy) == 0)
    ensures ex(host, StatScratch) == 0 && ex(host, StatArchive) == 0 ==> ran == [StatScratch, StatArchive] && ok
  {
    ran := [StatScratch];
    if ExecuteCommand(ex(host, StatScratch), true) != Ok(0) {
      ran := ran + [Mkdir];
      if ExecuteCommand(ex(host, Mkdir), false).Err? {
        return ran, false;
      }
    }
    ran := ran + [StatArchive];
    if ExecuteCommand(ex(host, StatArchive), true) != Ok(0) {
      ran := ran + [StatZip];
      if ExecuteCommand(ex(host, StatZip), true) != Ok(0) {
        ran := ran + [Copy];
        if ExecuteCommand(ex(host, Copy), false).Err? {
          return ran, false;
        }
      }
      ran := ran + [Unzip];
      if ExecuteCommand(ex(host, Unzip), false).Err? {
        return ran, false;
      }
    }
    ok := true;
  }

  // ---------------------------------------------------------------- recruit_hosts

  /** `n_hosts * ppn >= max_procs`, `None` standing for `np.inf`. */
  predicate Enough(nHosts: nat, ppn: nat, maxProcs: Option<nat>)
  {
    maxProcs.Some? && nHosts * ppn >= maxProcs.value
  }

  /** The usable hosts of `pool`, in pool order. */
  function UsableHosts(pool: seq<string>, ex: Exits): (r: seq<string>)
    ensures |r| <= |pool|
  {
    if pool == [] then []
    else
      var init := UsableHosts(pool[..|pool| - 1], ex);
      if Usable(pool[|pool| - 1], ex) then init + [pool[|pool| - 1]] else init
  }

  /** How far down the pool recruiting goes, having recruited `acc` from the
      first `from` hosts: it stops at the end of the pool, at `max_hosts`
      hosts, or once the hosts hold `max_procs` processors. */
  function StopAt(pool: seq<string>, ex: Exits, maxHosts: nat, maxProcs: Option<nat>, ppn: nat,
                  from: nat, acc: seq<string>): (k: nat)
    requires from <= |pool|
    ensures from <= k <= |pool|
    decreases |pool| - from
  {
    if from == |pool| || |acc| >= maxHosts || Enough(|acc|, ppn, maxProcs) then from
    else StopAt(pool, ex, maxHosts, maxProcs, ppn, from + 1,
                if Usable(pool[from], ex) then acc + [pool[from]] else acc)
  }

  /** The hosts recruiting ends with. */
  function Recruited(pool: seq<string>, ex: Exits, maxHosts: nat, maxProcs: Option<nat>, ppn: nat): seq<string>
  {
    UsableHosts(pool[..StopAt(pool, ex, maxHosts, maxProcs, ppn, 0, [])], ex)
  }

  lemma {:induction false} StopAtFacts(pool: seq<string>, ex: Exits, maxHosts: nat, maxProcs: Option<nat>, ppn: nat,
                                       from: nat, acc: seq<string>)
    requires from <= |pool| && acc == UsableHosts(pool[..from], ex) && |acc| <= maxHosts
    ensures var k := StopAt(pool, ex, maxHosts, maxProcs, ppn, from, acc);
      var r := UsableHosts(pool[..k], ex);
      && |r| <= maxHosts
      && (k < |pool| ==> |r| == maxHosts || Enough(|r|, ppn, maxProcs))
      && (forall j :: from <= j < k ==> |UsableHosts(pool[..j], ex)| < maxHosts && !Enough(|UsableHosts(pool[..j], ex)|, ppn, maxProcs))
    decreases |pool| - from
  {
    var k := StopAt(pool, ex, maxHosts, maxProcs, ppn, from, acc);
    if !(from == |pool| || |acc| >= maxHosts || Enough(|acc|, ppn, maxProcs)) {
      var acc' := if Usable(pool[from], ex) then acc + [pool[from]] else acc;
      assert pool[..from + 1][..from] == pool[..from];
      assert acc' == UsableHosts(pool[..from + 1], ex);
      StopAtFacts(pool, ex, maxHosts, maxProcs, ppn, from + 1, acc');
    }
  }

  /** One more host of the pool adds at most one usable host. */
  lemma UsableHostsStep(pool: seq<string>, ex: Exits, j: nat)
    requires j < |pool|
    ensures |UsableHosts(pool[..j + 1], ex)| <= |UsableHosts(pool[..j], ex)| + 1
  {
    assert pool[..j + 1][..j] == pool[..j];
  }

  /** Recruiting stops at most one host past the processors asked for: the
      hosts before the last one taken still fell short. */
  lemma StopAtOvershoot(pool: seq<string>, ex: Exits, maxHosts: nat, maxProcs: Option<nat>, ppn: nat)
    requires maxProcs.Some? && maxProcs.value > 0 && ppn > 0
    ensures |Recruited(pool, ex, maxHosts, maxProcs, ppn)| * ppn < maxProcs.value + ppn
  {
    var k := StopAt(pool, ex, maxHosts, maxProcs, ppn, 0, []);
    assert pool[..0] == [];
    StopAtFacts(pool, ex, maxHosts, maxProcs, ppn, 0, []);
    var r := UsableHosts(pool[..k], ex);
    if k > 0 {
      var before := |UsableHosts(pool[..k - 1], ex)|;
      assert !Enough(before, ppn, maxProcs);
      UsableHostsStep(pool, ex, k - 1);
      MulMonotone(|r|, before + 1, ppn);
      MulSucc(before, ppn);
    }
  }

  /** Recruiting takes the usable hosts of a prefix of the pool, in pool order:
      never more than `max_hosts`, and at most one host beyond the `max_procs`
      processors asked for. It passes over a host only once it has enough. */
  lemma RecruitedGreedy(pool: seq<string>, ex: Exits, maxHosts: nat, maxProcs: Option<nat>, ppn: nat)
    ensures var k := StopAt(pool, ex, maxHosts, maxProcs, ppn, 0, []);
      var r := Recruited(pool, ex, maxHosts, maxProcs, ppn);
      && r == UsableHosts(pool[..k], ex)
      && |r| <= maxHosts
      && (k < |pool| ==> |r| == maxHosts || Enough(|r|, ppn, maxProcs))
      && (maxProcs.Some? && maxProcs.value > 0 && ppn > 0 ==> |r| * ppn < maxProcs.value + ppn)
  {
    assert pool[..0] == [];
    StopAtFacts(pool, ex, maxHosts, maxProcs, ppn, 0, []);
    if maxProcs.Some? && maxProcs.value > 0 && ppn > 0 {
      StopAtOvershoot(pool, ex, maxHosts, maxProcs, ppn);
    }
  }

  /** Every recruited host is usable and comes from the pool. */
  lemma {:induction false} UsableHostsFromPool(pool: seq<string>, ex: Exits)
    ensures forall h :: h in UsableHosts(pool, ex) ==> Usable(h, ex) && h in pool
  {
    if pool != [] {
      var init := pool[..|pool| - 1];
      UsableHostsFromPool(init, ex);
      assert forall h :: h in init ==> h in pool;
    }
  }

  // ---------------------------------------------------------------- retry accounting

  /** `n_failures[j]` of the `defaultdict(int)`. */
  function Failures(m: map<nat, nat>, j: nat): nat
  {
    if j in m then m[j] else 0
  }

  predicate Increasing(s: seq<nat>)
  {
    forall i, j :: 0 <= i < j < |s| ==> s[i] < s[j]
  }

  lemma AppendIncreasing(s: seq<nat>, x: nat)
    requires Increasing(s) && forall j :: j in s ==> j < x
    ensures Increasing(s + [x])
  {
    forall i, j | 0 <= i < j < |s| + 1 ensures (s + [x])[i] < (s + [x])[j] {
      if j == |s| { assert s[i] in s; }
    }
  }

  /** How many steps ran operation `j`. */
  function Runs(batches: seq<seq<nat>>, j: nat): nat
  {
    if batches == [] then 0
    else Runs(batches[..|batches| - 1], j) + (if j in batches[|batches| - 1] then 1 else 0)
  }

  /** `[idx for idx in incomplete if idx not in dead_jobs]`, kept in order. */
  function Alive(incomplete: seq<nat>, dead: set<nat>): (r: seq<nat>)
    ensures forall j :: j in r <==> j in incomplete && j !in dead
    ensures Increasing(incomplete) ==> Increasing(r)
  {
    if incomplete == [] then []
    else
      var init := Alive(incomplete[..|incomplete| - 1], dead);
      var last := incomplete[|incomplete| - 1];
      assert forall j :: j in incomplete <==> j in incomplete[..|incomplete| - 1] || j == last;
      if last in dead then init
      else
        assert Increasing(incomplete) ==> Increasing(init + [last]) by {
          if Increasing(incomplete) {
            assert Increasing(incomplete[..|incomplete| - 1]);
            forall j | j in init ensures j < last {
              assert j in incomplete[..|incomplete| - 1];
              var i :| 0 <= i < |incomplete| - 1 && incomplete[i] == j;
            }
            AppendIncreasing(init, last);
          }
        }
        init + [last]
  }

  /** The `for j in indices_for_step` loop: every index of the step that is
      still incomplete counts one more failure, and goes dead once it has failed
      more than `n_retries` times. */
  method Account(batch: seq<nat>, incomplete: seq<nat>, nRetries: nat, failures: map<nat, nat>, dead: set<nat>)
    returns (failures': map<nat, nat>, dead': set<nat>)
    requires Increasing(batch)
    ensures forall j :: Failures(failures', j) == Failures(failures, j) + (if j in batch && j in incomplete then 1 else 0)
    ensures forall j :: j in dead' <==> j in dead || (j in batch && j in incomplete && Failures(failures', j) > nRetries)
  {
    failures', dead' := failures, dead;
    for i := 0 to |batch|
      invariant forall j :: Failures(failures', j) == Failures(failures, j) + (if j in batch[..i] && j in incomplete then 1 else 0)
      invariant forall j :: j in dead' <==> j in dead || (j in batch[..i] && j in incomplete && Failures(failures', j) > nRetries)
    {
      var j := batch[i];
      assert forall x :: x in batch[..i + 1] <==> x in batch[..i] || x == j;
      assert j !in batch[..i];
      if j in incomplete {
        failures' := failures'[j := Failures(failures', j) + 1];
        if Failures(failures', j) > nRetries {
          dead' := dead' + {j};
        }
      }
    }
    assert batch[..|batch|] == batch;
  }

  /** One step of `run` as written, on the accounting alone: the step runs the
      first `nProcs` remaining indices, then the remaining indices are those the
      results list as incomplete that are not dead. */
  function NextRemaining(remaining: seq<nat>, nProcs: nat, incomplete: seq<nat>, nRetries: nat,
                         failures: map<nat, nat>, dead: set<nat>): (r: (seq<nat>, map<nat, nat>, set<nat>))
  {
    var batch := remaining[..if nProcs < |remaining| then nProcs else |remaining|];
    var touched := failures.Keys + (set x | x in batch);
    var failures' := map j | j in touched ::
      Failures(failures, j) + (if j in batch && j in incomplete then 1 else 0);
    var dead' := dead + set j | j in batch && j in incomplete && Failures(failures', j) > nRetries;
    (Alive(incomplete, dead'), failures', dead')
  }

  /** With no processor recruited for a step, nothing runs: the results still
      list the same operations as incomplete, and the step leaves the remaining
      indices, the failure counts and the dead set as they were, so the `while`
      loop of `run` goes round forever. */
  lemma NoProcessorsNoProgress(remaining: seq<nat>, nRetries: nat, failures: map<nat, nat>, dead: set<nat>)
    requires remaining != [] && Increasing(remaining)
    requires forall j :: j in remaining ==> j !in dead
    ensures var next := NextRemaining(remaining, 0, remaining, nRetries, failures, dead);
      && next.0 == remaining
      && (forall j :: Failures(next.1, j) == Failures(failures, j))
      && next.2 == dead
  {
    var next := NextRemaining(remaining, 0, remaining, nRetries, failures, dead);
    assert next.2 == dead;
    AliveAll(remaining, dead);
  }

  lemma {:induction false} AliveAll(s: seq<nat>, dead: set<nat>)
    requires forall j :: j in s ==> j !in dead
    ensures Alive(s, dead) == s
  {
    if s != [] {
      AliveAll(s[..|s| - 1], dead);
      assert s[|s| - 1] in s;
      assert s[..|s| - 1] + [s[|s| - 1]] == s;
    }
  }

  // ---------------------------------------------------------------- the session

  /** What a run that is not a dry run did, step by step: the indices remaining
      before the step, the processors recruited for it and the batch it ran;
      then the indices that went dead. */
  datatype Outcome = DryRun | Done(remaining: seq<seq<nat>>, procs: seq<nat>, batches: seq<seq<nat>>, dead: set<nat>)

  /** The results only ever list fewer operations as incomplete: each step's
      list is drawn from the previous one, the first from the input archive's. */
  ghost predicate Shrinking(initial: seq<nat>, incomplete: nat -> seq<nat>)
  {
    && Drawn(incomplete(0), initial)
    && (forall k: nat, l: nat :: l == k + 1 ==> Drawn(incomplete(l), incomplete(k)))
  }

  predicate Drawn(a: seq<nat>, b: seq<nat>)
  {
    forall j :: j in a ==> j in b
  }

  /** The bookkeeping `run` keeps between steps: the remaining indices are
      sorted, alive and have run once per failure counted against them; no index
      ran more than `n_retries + 1` times, a dead one exactly that often; and no
      step ran an empty or unsorted batch. */
  ghost predicate Ledger(remaining: seq<nat>, failures: map<nat, nat>, dead: set<nat>, batches: seq<seq<nat>>, nRetries: nat)
  {
    && Increasing(remaining)
    && (forall j :: j in remaining ==> j !in dead && Failures(failures, j) <= nRetries && Runs(batches, j) == Failures(failures, j))
    && (forall j :: Runs(batches, j) <= nRetries + 1)
    && (forall j :: j in dead ==> Runs(batches, j) == nRetries + 1)
    && (forall i :: 0 <= i < |batches| ==> batches[i] != [] && Increasing(batches[i]))
  }

  /** One step of `run` once hosts are recruited: the batch of the first
      `nProcs` remaining indices runs, failures are counted, and the remaining
      indices become the incomplete ones `done` that are not dead. */
  method Advance(remaining: seq<nat>, nProcs: nat, done: seq<nat>, nRetries: nat, failures: map<nat, nat>,
                 dead: set<nat>, batches: seq<seq<nat>>)
    returns (remaining': seq<nat>, failures': map<nat, nat>, dead': set<nat>, batches': seq<seq<nat>>)
    requires nProcs > 0 && remaining != [] && Increasing(done)
    requires Ledger(remaining, failures, dead, batches, nRetries)
    requires forall j :: j in done ==> j in remaining || j in dead
    ensures Ledger(remaining', failures', dead', batches', nRetries)
    ensures batches' == batches + [remaining[..if nProcs < |remaining| then nProcs else |remaining|]]
    ensures remaining' == Alive(done, dead') && dead <= dead'
    ensures Tokens(remaining', failures', nRetries) < Tokens(remaining, failures, nRetries)
  {
    var batch := remaining[..if nProcs < |remaining| then nProcs else |remaining|];
    assert Increasing(batch);
    failures', dead' := Account(batch, done, nRetries, failures, dead);
    remaining' := Alive(done, dead');
    batches' := batches + [batch];
    RunsStep(batches, batch);
    assert forall j :: j in batch ==> j in remaining;
    forall j | j in remaining'
      ensures j !in dead' && Failures(failures', j) <= nRetries && Runs(batches', j) == Failures(failures', j)
    {
      assert j in remaining;
    }
    TokensShrink(remaining, remaining', failures, failures', nRetries, batch[0]);
  }

  /** A step ran the first `procs` of the indices `rem` remaining before it,
      `procs` being the positive number of processors on the hosts recruited. */
  predicate RanFirst(rem: seq<nat>, procs: nat, batch: seq<nat>, recruited: seq<string>, ppn: nat)
  {
    procs == ppn * |recruited| && procs > 0 && batch == rem[..if procs < |rem| then procs else |rem|]
  }

  /** The indices remaining after a step, in order: those its results list as
      incomplete that have not yet run `n_retries + 1` times. */
  ghost predicate Carried(rem: seq<nat>, incomplete: seq<nat>, batches: seq<seq<nat>>, nRetries: nat)
  {
    Increasing(rem) && forall j :: j in rem <==> j in incomplete && Runs(batches, j) <= nRetries
  }

  /** After a step, the indices still remaining are carried as `Carried` says. */
  lemma CarriedAfter(done: seq<nat>, dead: set<nat>, remaining: seq<nat>, failures: map<nat, nat>, batches: seq<seq<nat>>, nRetries: nat)
    requires Ledger(remaining, failures, dead, batches, nRetries) && remaining == Alive(done, dead)
    ensures Carried(remaining, done, batches, nRetries)
  {
    forall j | j in done && j !in remaining
      ensures Runs(batches, j) > nRetries
    {
      assert j in dead;
    }
  }

  class Session {
    const pool: seq<string>
    const ppn: nat
    const minHosts: nat
    const maxHosts: nat
    const nRetries: nat
    const dryRun: bool
    var hosts: seq<string>
    var nProcs: nat

    constructor (pool: seq<string>, ppn: nat, minHosts: nat, maxHosts: nat, nRetries: nat, dryRun: bool)
      ensures this.pool == pool && this.ppn == ppn && this.minHosts == minHosts
      ensures this.maxHosts == maxHosts && this.nRetries == nRetries && this.dryRun == dryRun
      ensures hosts == [] && nProcs == 0
    {
      this.pool, this.ppn, this.minHosts, this.maxHosts := pool, ppn, minHosts, maxHosts;
      this.nRetries, this.dryRun := nRetries, dryRun;
      hosts, nProcs := [], 0;
    }

    /** `recruit_hosts(max_procs)`: walks the pool, recruiting each usable host,
        until the pool ends, `max_hosts` hosts are in or they hold `max_procs`
        processors; fails below `min_hosts`, else sets `n_procs`. */
    method RecruitHosts(maxProcs: Option<nat>, ex: Exits) returns (r: Result<()>)
      modifies this
      ensures hosts == Recruited(pool, ex, maxHosts, maxProcs, ppn)
      ensures r.Err? <==> |hosts| < minHosts
      ensures r.Ok? ==> nProcs == ppn * |hosts|
      ensures r.Err? ==> nProcs == old(nProcs)
    {
      hosts := [];
      var i := 0;
      assert pool[..0] == [];
      while i < |pool| && |hosts| < maxHosts && !Enough(|hosts|, ppn, maxProcs)
        invariant 0 <= i <= |pool|
        invariant hosts == UsableHosts(pool[..i], ex)
        invariant StopAt(pool, ex, maxHosts, maxProcs, ppn, i, hosts) == StopAt(pool, ex, maxHosts, maxProcs, ppn, 0, [])
        invariant nProcs == old(nProcs)
      {
        var host := pool[i];
        var connected := host == Local || ExecuteCommand(ex(host, Echo), true) == Ok(0);
        assert pool[..i + 1][..i] == pool[..i];
        if connected {
          var ran, ok := PrepareHost(host, ex);
          if ok {
            hosts := hosts + [host];
          }
        }
        i := i + 1;
      }
      if |hosts| < minHosts {
        return Err("Exception");
      }
      nProcs := ppn * |hosts|;
      r := Ok(());
    }

    /** What each step of a run did: the remaining indices before the first
        step are the input's; every step ran the first `n_procs` remaining
        indices; the indices remaining before each later step are carried
        from the previous step's results. */
    ghost predicate Schedule(initial: seq<nat>, exitsAt: nat -> Exits, incomplete: nat -> seq<nat>,
                             rem: seq<seq<nat>>, procs: seq<nat>, batches: seq<seq<nat>>)
    {
      && |rem| == |batches| && |procs| == |batches|
      && (batches != [] ==> rem[0] == initial)
      && (forall i :: 0 <= i < |batches| ==>
            RanFirst(rem[i], procs[i], batches[i], Recruited(pool, exitsAt(i), maxHosts, Some(|rem[i]|), ppn), ppn))
      && (forall i :: 0 < i < |batches| ==> Carried(rem[i], incomplete(i - 1), batches[..i], nRetries))
    }

    /** A schedule grows by one step that ran the first `n_procs` indices of
        those carried from the last step. */
    lemma ScheduleStep(initial: seq<nat>, exitsAt: nat -> Exits, incomplete: nat -> seq<nat>,
                       rem: seq<seq<nat>>, procs: seq<nat>, batches: seq<seq<nat>>,
                       remaining: seq<nat>, n: nat, batch: seq<nat>)
      requires Schedule(initial, exitsAt, incomplete, rem, procs, batches)
      requires batches == [] ==> remaining == initial
      requires batches != [] ==> Carried(remaining, incomplete(|batches| - 1), batches, nRetries)
      requires RanFirst(remaining, n, batch, Recruited(pool, exitsAt(|batches|), maxHosts, Some(|remaining|), ppn), ppn)
      ensures Schedule(initial, exitsAt, incomplete, rem + [remaining], procs + [n], batches + [batch])
    {
      var batches' := batches + [batch];
      assert batches'[..|batches|] == batches;
      forall i | 0 < i < |batches|
        ensures batches'[..i] == batches[..i]
      {
      }
    }

    /** `run()`: when the input archive had no ready incomplete operation, the
        constructor returned before setting `dry_run`, so reading it raises
        `AttributeError` before anything runs. Otherwise, while operations
        remain, recruit hosts for them, run the first
        `n_procs` remaining indices, and count a failure against each of those the
        results still list as incomplete; an index that failed more than
        `n_retries` times is dead and never scheduled again. Once none remain, the
        input archive is backed up and replaced by the results (neither copy is
        robust). `exitsAt(k)` and `incomplete(k)` are the command exit codes and
        the incomplete indices of step `k`. A step that recruits no processor
        raises instead of going round again. A run that succeeds ran, at each
        step, the first `n_procs` remaining indices, `n_procs` being what
        `recruit_hosts` found for that many; the next step's remaining indices
        are those the step's results list as incomplete that have not yet run
        `n_retries + 1` times; and once none remain, every index the last results
        list as incomplete is dead, every other one complete. */
    method Run(initial: seq<nat>, exitsAt: nat -> Exits, incomplete: nat -> seq<nat>,
               backupExit: int, overwriteExit: int) returns (r: Result<Outcome>)
      requires Increasing(initial) && forall k :: Increasing(incomplete(k))
      requires Shrinking(initial, incomplete)
      modifies this
      ensures initial == [] ==> r == Err("AttributeError")
      ensures dryRun && initial != [] ==> r == Ok(DryRun)
      ensures r.Ok? && !dryRun ==> r.value.Done? && backupExit == 0 && overwriteExit == 0
      ensures r.Ok? && r.value.Done? ==>
        var batches := r.value.batches;
        && (forall k :: 0 <= k < |batches| ==> batches[k] != [] && Increasing(batches[k]))
        && (forall j :: Runs(batches, j) <= nRetries + 1)
        && (forall j :: j in r.value.dead ==> Runs(batches, j) == nRetries + 1)
      ensures r.Ok? && r.value.Done? ==>
        && Schedule(initial, exitsAt, incomplete, r.value.remaining, r.value.procs, r.value.batches)
        && r.value.batches != []
        && (forall j :: j in incomplete(|r.value.batches| - 1) ==> j in r.value.dead)
    {
      if initial == [] {
        return Err("AttributeError");
      }
      if dryRun {
        return Ok(DryRun);
      }
      var remaining := initial;
      var failures: map<nat, nat> := map[];
      var dead: set<nat> := {};
      var batches: seq<seq<nat>> := [];
      var rem: seq<seq<nat>> := [];
      var procs: seq<nat> := [];
      var k: nat := 0;
      while remaining != []
        invariant Ledger(remaining, failures, dead, batches, nRetries)
        invariant forall j :: j in (if k == 0 then initial else incomplete(k - 1)) ==> j in remaining || j in dead
        invariant |batches| == k && Schedule(initial, exitsAt, incomplete, rem, procs, batches)
        invariant k == 0 ==> remaining == initial
        invariant k > 0 ==> Carried(remaining, incomplete(k - 1), batches, nRetries)
        decreases Tokens(remaining, failures, nRetries)
      {
        var recruited := RecruitHosts(Some(|remaining|), exitsAt(k));
        if recruited.Err? {
          return Err(recruited.error);
        }
        if nProcs == 0 {
          return Err("no processors to run the step on");
        }
        var done := incomplete(k);
        assert Drawn(done, if k == 0 then initial else incomplete(k - 1)) by {
          if k > 0 { assert Drawn(incomplete(k), incomplete(k - 1)); }
        }
        var remaining0 := remaining;
        ghost var batches0 := batches;
        remaining, failures, dead, batches := Advance(remaining, nProcs, done, nRetries, failures, dead, batches);
        ScheduleStep(initial, exitsAt, incomplete, rem, procs, batches0, remaining0, nProcs, batches[k]);
        rem, procs := rem + [remaining0], procs + [nProcs];
        CarriedAfter(done, dead, remaining, failures, batches, nRetries);
        k := k + 1;
      }
      var backup := ExecuteCommand(backupExit, false);
      if backup.Err? {
        return Err(backup.error);
      }
      var overwrite := ExecuteCommand(overwriteExit, false);
      if overwrite.Err? {
        return Err(overwrite.error);
      }
      r := Ok(Done(rem, procs, batches, dead));
    }
  }

  /** The attempts left: `(j, t)` for each remaining index `j` and each failure
      count `t` it may still reach without going dead. */
  function Tokens(remaining: seq<nat>, failures: map<nat, nat>, nRetries: nat): set<(nat, nat)>
  {
    set j, t | j in remaining && 0 <= t <= nRetries && Failures(failures, j) <= t :: (j, t)
  }

  lemma RunsStep(batches: seq<seq<nat>>, batch: seq<nat>)
    ensures forall j :: Runs(batches + [batch], j) == Runs(batches, j) + (if j in batch then 1 else 0)
  {
    assert (batches + [batch])[..|batches|] == batches;
  }

  lemma TokensShrink(remaining: seq<nat>, remaining': seq<nat>, failures: map<nat, nat>, failures': map<nat, nat>,
                     nRetries: nat, first: nat)
    requires forall j :: j in remaining' ==> j in remaining && Failures(failures, j) <= Failures(failures', j)
    requires first in remaining && Failures(failures, first) <= nRetries
    requires first !in remaining' || Failures(failures', first) > Failures(failures, first)
    ensures Tokens(remaining', failures', nRetries) < Tokens(remaining, failures, nRetries)
  {
    var t := (first, Failures(failures, first));
    assert t in Tokens(remaining, failures, nRetries);
    assert t !in Tokens(remaining', failures', nRetries);
  }
}
