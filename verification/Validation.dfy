/**
 The two validators of a configuration: ValidateConfig, which stops at the first
 problem (internal/config/config.go), and collectValidationErrors, which reports
 every problem with its line and also looks for circular dependencies
 (internal/config/validate.go).
 */
module Validation {
  import opened Wrappers
  import opened Dependencies
  import opened LineIndex
  import Sorting

  /** The verdict of a single check: None when it passes, else its message. */
  type Verdict = Option<string>

  /** The checks on one server, in the order both validators run them. */
  datatype Check = Basics | HumanControl | Resources | Tools | Security | Limits

  /** A server: what it depends on, and how it fares in each check. */
  datatype ServerConfig = ServerConfig(
    dependsOn: seq<string>, basics: Verdict, humanControl: Verdict,
    resources: Verdict, tools: Verdict, security: Verdict, limits: Verdict)

  datatype Config = Config(version: string, servers: map<string, ServerConfig>, global: Verdict)

  datatype Problem =
    | UnsupportedVersion
    | FailedCheck(name: string, check: Check, message: string)
    | UndefinedDependency(name: string, dep: string)
    | CircularDependency(cycle: seq<string>)
    | GlobalProblem(message: string)

  datatype ValidationError = ValidationError(file: string, line: int, path: string, problem: Problem)

  function DependencyGraph(cfg: Config): Graph {
    map name | name in cfg.servers :: cfg.servers[name].dependsOn
  }

  // ----- The problems of a configuration -----

  function FromVerdict(name: string, check: Check, verdict: Verdict): seq<Problem> {
    match verdict
    case None => []
    case Some(message) => [FailedCheck(name, check, message)]
  }

  function UndefinedDependencies(cfg: Config, name: string, deps: seq<string>): seq<Problem> {
    if deps == [] then []
    else
      UndefinedDependencies(cfg, name, deps[..|deps| - 1]) +
      if deps[|deps| - 1] in cfg.servers then [] else [UndefinedDependency(name, deps[|deps| - 1])]
  }

  function ServerProblems(cfg: Config, name: string): seq<Problem>
    requires name in cfg.servers
  {
    var server := cfg.servers[name];
    FromVerdict(name, Basics, server.basics) + UndefinedDependencies(cfg, name, server.dependsOn) +
    FromVerdict(name, HumanControl, server.humanControl) + FromVerdict(name, Resources, server.resources) +
    FromVerdict(name, Tools, server.tools) + FromVerdict(name, Security, server.security) +
    FromVerdict(name, Limits, server.limits)
  }

  function AllServerProblems(cfg: Config, names: seq<string>): seq<Problem>
    requires forall name :: name in names ==> name in cfg.servers
  {
    if names == [] then []
    else AllServerProblems(cfg, names[..|names| - 1]) + ServerProblems(cfg, names[|names| - 1])
  }

  function VersionProblems(cfg: Config): seq<Problem> {
    if cfg.version == "1" then [] else [UnsupportedVersion]
  }

  function GlobalProblems(cfg: Config): seq<Problem> {
    match cfg.global
    case None => []
    case Some(message) => [GlobalProblem(message)]
  }

  function Circular(cycles: seq<seq<string>>): (r: seq<Problem>)
    ensures |r| == |cycles| && forall i :: 0 <= i < |r| ==> r[i] == CircularDependency(cycles[i])
  {
    seq(|cycles|, i requires 0 <= i < |cycles| => CircularDependency(cycles[i]))
  }

  ghost predicate Acyclic(g: Graph) {
    forall w :: !IsClosedWalk(g, w)
  }

  /** A server passes every check, and all it depends on is defined. */
  ghost predicate ServerPasses(cfg: Config, server: ServerConfig) {
    && server.basics == server.humanControl == server.resources == None
    && server.tools == server.security == server.limits == None
    && forall dep :: dep in server.dependsOn ==> dep in cfg.servers
  }

  ghost predicate Passes(cfg: Config) {
    && cfg.version == "1" && cfg.global == None
    && forall name :: name in cfg.servers ==> ServerPasses(cfg, cfg.servers[name])
  }

  // ----- What the problems of a server are -----

  function VerdictOf(server: ServerConfig, check: Check): Verdict {
    match check
    case Basics => server.basics
    case HumanControl => server.humanControl
    case Resources => server.resources
    case Tools => server.tools
    case Security => server.security
    case Limits => server.limits
  }

  lemma {:induction false} UndefinedMembers(cfg: Config, name: string, deps: seq<string>, p: Problem)
    ensures p in UndefinedDependencies(cfg, name, deps) <==>
      p.UndefinedDependency? && p.name == name && p.dep in deps && p.dep !in cfg.servers
  {
    if deps != [] {
      UndefinedMembers(cfg, name, deps[..|deps| - 1], p);
      assert deps == deps[..|deps| - 1] + [deps[|deps| - 1]];
    }
  }

  /** The problems of a server are its failed checks and the dependencies that are not defined. */
  lemma ServerProblemsExactly(cfg: Config, name: string, p: Problem)
    requires name in cfg.servers
    ensures p in ServerProblems(cfg, name) <==>
      match p
      case FailedCheck(n, check, message) => n == name && VerdictOf(cfg.servers[name], check) == Some(message)
      case UndefinedDependency(n, dep) => n == name && dep in cfg.servers[name].dependsOn && dep !in cfg.servers
      case _ => false
  {
    hide UndefinedDependencies;
    UndefinedMembers(cfg, name, cfg.servers[name].dependsOn, p);
  }

  lemma NoProblemsExactly(cfg: Config, name: string)
    requires name in cfg.servers
    ensures ServerProblems(cfg, name) == [] <==> ServerPasses(cfg, cfg.servers[name])
  {
    hide UndefinedDependencies;
    var deps := cfg.servers[name].dependsOn;
    if ServerPasses(cfg, cfg.servers[name]) {
      if UndefinedDependencies(cfg, name, deps) != [] {
        UndefinedMembers(cfg, name, deps, UndefinedDependencies(cfg, name, deps)[0]);
      }
    } else if dep :| dep in deps && dep !in cfg.servers {
      UndefinedMembers(cfg, name, deps, UndefinedDependency(name, dep));
    }
  }

  lemma OneDependency(cfg: Config, name: string, dep: string)
    ensures UndefinedDependencies(cfg, name, [dep]) ==
      if dep in cfg.servers then [] else [UndefinedDependency(name, dep)]
  {
    assert [dep][..0] == [];
  }

  lemma OneMoreDependency(cfg: Config, name: string, deps: seq<string>, dep: string)
    ensures UndefinedDependencies(cfg, name, deps + [dep]) ==
      UndefinedDependencies(cfg, name, deps) + UndefinedDependencies(cfg, name, [dep])
    ensures UndefinedDependencies(cfg, name, []) == []
  {
    assert (deps + [dep])[..|deps|] == deps;
    OneDependency(cfg, name, dep);
  }

  /** Undefined dependencies are reported in the order in which they are listed, each as often as it is. */
  lemma {:induction false} UndefinedInOrder(cfg: Config, name: string, before: seq<string>, after: seq<string>)
    ensures UndefinedDependencies(cfg, name, before + after) ==
      UndefinedDependencies(cfg, name, before) + UndefinedDependencies(cfg, name, after)
  {
    hide UndefinedDependencies;
    if after == [] {
      assert before + after == before;
      OneMoreDependency(cfg, name, [], "");
    } else {
      var rest, dep := after[..|after| - 1], after[|after| - 1];
      UndefinedInOrder(cfg, name, before, rest);
      assert after == rest + [dep] && before + after == before + rest + [dep];
      OneMoreDependency(cfg, name, rest, dep);
      OneMoreDependency(cfg, name, before + rest, dep);
    }
  }

  /** The place of a problem in the report on its server. */
  function Rank(p: Problem): nat {
    match p
    case FailedCheck(_, Basics, _) => 0
    case UndefinedDependency(_, _) => 1
    case FailedCheck(_, HumanControl, _) => 2
    case FailedCheck(_, Resources, _) => 3
    case FailedCheck(_, Tools, _) => 4
    case FailedCheck(_, Security, _) => 5
    case _ => 6
  }

  /** A server's problems come in the order of the checks, undefined dependencies second; no check fails twice. */
  lemma ServerProblemsInOrder(cfg: Config, name: string, i: nat, j: nat)
    requires name in cfg.servers && i < j < |ServerProblems(cfg, name)|
    ensures var x, y := ServerProblems(cfg, name)[i], ServerProblems(cfg, name)[j];
      Rank(x) < Rank(y) || (x.UndefinedDependency? && y.UndefinedDependency?)
  {
    hide UndefinedDependencies;
    var undefined := UndefinedDependencies(cfg, name, cfg.servers[name].dependsOn);
    forall k | 0 <= k < |undefined| ensures undefined[k].UndefinedDependency? {
      UndefinedMembers(cfg, name, cfg.servers[name].dependsOn, undefined[k]);
    }
  }

  /** The servers are reported on in the order of the names. */
  lemma {:induction false} ServersInOrder(cfg: Config, before: seq<string>, after: seq<string>)
    requires forall name :: name in before || name in after ==> name in cfg.servers
    ensures AllServerProblems(cfg, before + after) == AllServerProblems(cfg, before) + AllServerProblems(cfg, after)
  {
    hide AllServerProblems, ServerProblems;
    if after == [] {
      assert before + after == before;
      NoServers(cfg);
    } else {
      var rest, name := after[..|after| - 1], after[|after| - 1];
      assert after == rest + [name] && before + after == before + rest + [name];
      ServersInOrder(cfg, before, rest);
      AnotherServer(cfg, rest, name);
      AnotherServer(cfg, before + rest, name);
    }
  }

  lemma NoServers(cfg: Config)
    ensures AllServerProblems(cfg, []) == []
  {
  }

  lemma AnotherServer(cfg: Config, names: seq<string>, name: string)
    requires name in cfg.servers && forall n :: n in names ==> n in cfg.servers
    ensures AllServerProblems(cfg, names + [name]) == AllServerProblems(cfg, names) + ServerProblems(cfg, name)
  {
    assert (names + [name])[..|names|] == names;
  }

  // ----- ValidateConfig -----

  /** `p` is the problem at which the checks of some server stop. */
  ghost predicate StopsAt(cfg: Config, name: string, p: Problem) {
    name in cfg.servers && ServerProblems(cfg, name) != [] && p == ServerProblems(cfg, name)[0]
  }

  method FirstOf(name: string, check: Check, verdict: Verdict, sofar: Option<Problem>) returns (r: Option<Problem>)
    ensures r == if sofar.Some? then sofar else if verdict.Some? then Some(FailedCheck(name, check, verdict.value))
      else None
  {
    if sofar.Some? { return sofar; }
    match verdict
    case None => return None;
    case Some(message) => return Some(FailedCheck(name, check, message));
  }

  /** The body of ValidateConfig's loop: the first problem of one server. */
  method FirstServerProblem(cfg: Config, name: string) returns (r: Option<Problem>)
    requires name in cfg.servers
    ensures r.None? <==> ServerPasses(cfg, cfg.servers[name])
    ensures r.Some? ==> StopsAt(cfg, name, r.value)
  {
    NoProblemsExactly(cfg, name);
    hide ServerPasses;
    var server := cfg.servers[name];
    r := FirstOf(name, Basics, server.basics, None);
    if r.Some? { return; }
    for i := 0 to |server.dependsOn|
      invariant UndefinedDependencies(cfg, name, server.dependsOn[..i]) == []
    {
      assert server.dependsOn[..i + 1][..i] == server.dependsOn[..i];
      if server.dependsOn[i] !in cfg.servers {
        UndefinedStartsWith(cfg, name, server.dependsOn, i + 1);
        return Some(UndefinedDependency(name, server.dependsOn[i]));
      }
    }
    assert server.dependsOn[..|server.dependsOn|] == server.dependsOn;
    r := FirstOf(name, HumanControl, server.humanControl, r);
    r := FirstOf(name, Resources, server.resources, r);
    r := FirstOf(name, Tools, server.tools, r);
    r := FirstOf(name, Security, server.security, r);
    r := FirstOf(name, Limits, server.limits, r);
  }

  lemma {:induction false} UndefinedStartsWith(cfg: Config, name: string, deps: seq<string>, i: nat)
    requires i <= |deps|
    ensures UndefinedDependencies(cfg, name, deps[..i]) <= UndefinedDependencies(cfg, name, deps)
    decreases |deps|
  {
    if i < |deps| {
      UndefinedStartsWith(cfg, name, deps[..|deps| - 1], i);
      assert deps[..|deps| - 1][..i] == deps[..i];
    } else {
      assert deps[..i] == deps;
    }
  }

  /** The map yields its servers in any order, so which server stops it is not determined. */
  method ValidateConfig(cfg: Config) returns (r: Option<Problem>)
    ensures r.None? <==> Passes(cfg)
    ensures r.Some? && cfg.version != "1" ==> r.value == UnsupportedVersion
    ensures r.Some? && cfg.version == "1" ==>
      || (exists name :: StopsAt(cfg, name, r.value))
      || (cfg.global.Some? && r.value == GlobalProblem(cfg.global.value) &&
          forall name :: name in cfg.servers ==> ServerPasses(cfg, cfg.servers[name]))
  {
    hide ServerPasses;
    if cfg.version != "1" { return Some(UnsupportedVersion); }
    var rest := cfg.servers.Keys;
    while rest != {}
      invariant rest <= cfg.servers.Keys
      invariant forall name :: name in cfg.servers && name !in rest ==> ServerPasses(cfg, cfg.servers[name])
    {
      var name :| name in rest;
      r := FirstServerProblem(cfg, name);
      if r.Some? { return; }
      rest := rest - {name};
    }
    match cfg.global
    case None => return None;
    case Some(message) => return Some(GlobalProblem(message));
  }

  // ----- collectValidationErrors -----

  /** strings.Contains(s, sub) */
  predicate Contains(s: string, sub: string) {
    exists i :: 0 <= i <= |s| - |sub| && OccursAt(s, sub, i)
  }

  predicate OccursAt(s: string, sub: string, i: int)
    requires 0 <= i <= |s| - |sub|
  {
    s[i..i + |sub|] == sub
  }

  lemma ContainsExactly(s: string, sub: string)
    ensures Contains(s, sub) <==> exists before, after :: s == before + sub + after
  {
    if Contains(s, sub) {
      var i :| 0 <= i <= |s| - |sub| && OccursAt(s, sub, i);
      assert s == s[..i] + sub + s[i + |sub|..];
    }
    if before, after :| s == before + sub + after {
      assert OccursAt(s, sub, |before|);
    }
  }

  function GlobalErrorPath(message: string): string {
    if Contains(message, "proxy_auth") then "proxy_auth"
    else if Contains(message, "dashboard") then "dashboard"
    else if Contains(message, "oauth") then "oauth"
    else if Contains(message, "connection") then "connections"
    else ""
  }

  function PathOf(p: Problem): string {
    match p
    case UnsupportedVersion => "version"
    case FailedCheck(name, Basics, _) => "servers." + name
    case FailedCheck(name, HumanControl, _) => "servers." + name + ".lifecycle.human_control"
    case FailedCheck(name, Resources, _) => "servers." + name + ".resources"
    case FailedCheck(name, Tools, _) => "servers." + name + ".tools"
    case FailedCheck(name, Security, _) => "servers." + name + ".security"
    case FailedCheck(name, Limits, _) => "servers." + name + ".deploy.resources"
    case UndefinedDependency(name, _) => "servers." + name + ".depends_on"
    case CircularDependency(cycle) => "servers." + (if cycle == [] then "" else cycle[0]) + ".depends_on"
    case GlobalProblem(message) => GlobalErrorPath(message)
  }

  /** Where each problem of a server is located: at the part of its configuration that it is about. */
  lemma ServerPathsExactly(name: string, check: Check, message: string, dep: string, cycle: seq<string>)
    ensures var under :=
        match check
        case Basics => ""
        case HumanControl => ".lifecycle.human_control"
        case Resources => ".resources"
        case Tools => ".tools"
        case Security => ".security"
        case Limits => ".deploy.resources";
      PathOf(FailedCheck(name, check, message)) == "servers." + name + under
    ensures PathOf(UndefinedDependency(name, dep)) == "servers." + name + ".depends_on"
    ensures cycle != [] ==> PathOf(CircularDependency(cycle)) == "servers." + cycle[0] + ".depends_on"
    ensures forall p: Problem :: ShownPath(p) == if p.GlobalProblem? then "" else PathOf(p)
  {
    if check == Basics {
      assert "servers." + name + "" == "servers." + name;
    }
  }

  /** A message that names several parts of the configuration is located at the first of these that it names. */
  lemma GlobalPathsExactly(message: string)
    ensures PathOf(UnsupportedVersion) == "version"
    ensures var path := PathOf(GlobalProblem(message)); var names := part => Contains(message, part);
      && (names("proxy_auth") ==> path == "proxy_auth")
      && (!names("proxy_auth") && names("dashboard") ==> path == "dashboard")
      && (!names("proxy_auth") && !names("dashboard") && names("oauth") ==> path == "oauth")
      && (!names("proxy_auth") && !names("dashboard") && !names("oauth") && names("connection") ==>
            path == "connections")
      && (!names("proxy_auth") && !names("dashboard") && !names("oauth") && !names("connection") ==> path == "")
  {
    hide Contains;
  }

  /** A global problem is reported without its path, but on the line of that path. */
  function ShownPath(p: Problem): string {
    if p.GlobalProblem? then "" else PathOf(p)
  }

  /** Every error names the file, its path and the best line known for it. */
  ghost predicate Located(file: string, paths: Paths, errs: seq<ValidationError>) {
    forall e :: e in errs ==>
      e.file == file && e.path == ShownPath(e.problem) && IsBestLine(paths, PathOf(e.problem), e.line)
  }

  function Problems(errs: seq<ValidationError>): (r: seq<Problem>)
    ensures |r| == |errs|
  {
    seq(|errs|, i requires 0 <= i < |errs| => errs[i].problem)
  }

  lemma OneMoreServer(cfg: Config, names: seq<string>, i: nat)
    requires i < |names| && forall name :: name in names ==> name in cfg.servers
    ensures AllServerProblems(cfg, names[..i + 1]) == AllServerProblems(cfg, names[..i]) + ServerProblems(cfg, names[i])
  {
    assert names[..i + 1][..i] == names[..i];
  }

  /** The error list that the closure `add` appends to. */
  class ErrorList {
    const index: Index
    var errs: seq<ValidationError>
    ghost var reported: seq<Problem>

    constructor (index: Index)
      ensures Valid() && reported == [] && this.index == index
    {
      this.index, errs, reported := index, [], [];
    }

    ghost predicate Valid()
      reads this, index
    {
      Located(index.file, index.paths, errs) && reported == Problems(errs)
    }

    method Add(problem: Problem)
      requires Valid()
      modifies this
      ensures Valid() && reported == old(reported) + [problem]
    {
      var line := index.Lookup(PathOf(problem));
      errs := errs + [ValidationError(index.file, line, ShownPath(problem), problem)];
      reported := reported + [problem];
    }

    method AddVerdict(name: string, check: Check, verdict: Verdict)
      requires Valid()
      modifies this
      ensures Valid() && reported == old(reported) + FromVerdict(name, check, verdict)
    {
      match verdict
      case None =>
      case Some(message) => Add(FailedCheck(name, check, message));
    }

    method AddUndefined(cfg: Config, name: string, deps: seq<string>)
      requires Valid()
      modifies this
      ensures Valid() && reported == old(reported) + UndefinedDependencies(cfg, name, deps)
    {
      for i := 0 to |deps|
        invariant Valid() && reported == old(reported) + UndefinedDependencies(cfg, name, deps[..i])
      {
        assert deps[..i + 1][..i] == deps[..i];
        if deps[i] !in cfg.servers {
          Add(UndefinedDependency(name, deps[i]));
        }
      }
      assert deps[..|deps|] == deps;
    }

    method AddServer(cfg: Config, name: string)
      requires Valid() && name in cfg.servers
      modifies this
      ensures Valid() && reported == old(reported) + ServerProblems(cfg, name)
    {
      hide Located, Problems, FromVerdict, UndefinedDependencies;
      var server := cfg.servers[name];
      AddVerdict(name, Basics, server.basics);
      AddUndefined(cfg, name, server.dependsOn);
      ghost var done := FromVerdict(name, Basics, server.basics) + UndefinedDependencies(cfg, name, server.dependsOn);
      assert reported == old(reported) + done;
      done := AddNext(name, HumanControl, server.humanControl, old(reported), done);
      done := AddNext(name, Resources, server.resources, old(reported), done);
      done := AddNext(name, Tools, server.tools, old(reported), done);
      done := AddNext(name, Security, server.security, old(reported), done);
      done := AddNext(name, Limits, server.limits, old(reported), done);
    }

    /** One more check after those that gave `done`. */
    method AddNext(name: string, check: Check, verdict: Verdict, ghost before: seq<Problem>, ghost done: seq<Problem>)
      returns (ghost done': seq<Problem>)
      requires Valid() && reported == before + done
      modifies this
      ensures Valid() && done' == done + FromVerdict(name, check, verdict) && reported == before + done'
    {
      AddVerdict(name, check, verdict);
      done' := done + FromVerdict(name, check, verdict);
    }

    method AddServers(cfg: Config, names: seq<string>)
      requires Valid() && forall name :: name in names ==> name in cfg.servers
      modifies this
      ensures Valid() && reported == old(reported) + AllServerProblems(cfg, names)
    {
      hide IsBestLine, ServerProblems, Located, Problems;
      for i := 0 to |names|
        invariant Valid() && reported == old(reported) + AllServerProblems(cfg, names[..i])
      {
        OneMoreServer(cfg, names, i);
        AddServer(cfg, names[i]);
      }
      assert names[..|names|] == names;
    }

    method AddCycles(cycles: seq<seq<string>>)
      requires Valid()
      modifies this
      ensures Valid() && reported == old(reported) + Circular(cycles)
    {
      for i := 0 to |cycles|
        invariant Valid() && reported == old(reported) + Circular(cycles[..i])
      {
        assert Circular(cycles[..i + 1]) == Circular(cycles[..i]) + [CircularDependency(cycles[i])];
        Add(CircularDependency(cycles[i]));
      }
      assert cycles[..|cycles|] == cycles;
    }
  }

  /** The problems reported for the servers in the order `names`, and for `cycles`. */
  function Report(cfg: Config, names: seq<string>, cycles: seq<seq<string>>): seq<Problem>
    requires forall name :: name in names ==> name in cfg.servers
  {
    VersionProblems(cfg) + AllServerProblems(cfg, names) + Circular(cycles) + GlobalProblems(cfg)
  }

  lemma {:induction false} NoServerProblems(cfg: Config, names: seq<string>)
    requires forall name :: name in names ==> name in cfg.servers
    ensures AllServerProblems(cfg, names) == [] <==> forall name :: name in names ==> ServerProblems(cfg, name) == []
    ensures forall name, p :: name in names && p in ServerProblems(cfg, name) ==> p in AllServerProblems(cfg, names)
  {
    if names != [] {
      NoServerProblems(cfg, names[..|names| - 1]);
      assert names == names[..|names| - 1] + [names[|names| - 1]];
    }
  }

  /**
   Nothing is reported exactly when ValidateConfig succeeds and the servers can
   be ordered; and what ValidateConfig would stop at is always reported.
   */
  lemma ReportIsComplete(cfg: Config, names: seq<string>, cycles: seq<seq<string>>)
    requires multiset(names) == multiset(cfg.servers.Keys)
    requires forall name :: name in names ==> name in cfg.servers
    requires cycles == [] <==> Acyclic(DependencyGraph(cfg))
    ensures Report(cfg, names, cycles) == [] <==> Passes(cfg) && Acyclic(DependencyGraph(cfg))
    ensures cfg.version != "1" ==> UnsupportedVersion in Report(cfg, names, cycles)
    ensures cfg.global.Some? ==> GlobalProblem(cfg.global.value) in Report(cfg, names, cycles)
    ensures forall name, p :: StopsAt(cfg, name, p) ==> p in Report(cfg, names, cycles)
  {
    hide ServerPasses, ServerProblems;
    NoServerProblems(cfg, names);
    forall name | name in cfg.servers
      ensures name in names && (ServerProblems(cfg, name) == [] <==> ServerPasses(cfg, cfg.servers[name]))
    {
      assert name in multiset(cfg.servers.Keys);
      assert name in multiset(names);
      NoProblemsExactly(cfg, name);
    }
    var servers := AllServerProblems(cfg, names);
    forall p | p in servers || p in VersionProblems(cfg) || p in GlobalProblems(cfg)
      ensures p in Report(cfg, names, cycles)
    {
    }
    if cfg.version != "1" { assert VersionProblems(cfg)[0] == UnsupportedVersion; }
    if cfg.global.Some? { assert GlobalProblems(cfg)[0] == GlobalProblem(cfg.global.value); }
  }

  lemma {:induction false} ServersReportNoCycle(cfg: Config, names: seq<string>)
    requires forall name :: name in names ==> name in cfg.servers
    ensures forall p :: p in AllServerProblems(cfg, names) ==> !p.CircularDependency?
  {
    if names != [] {
      ServersReportNoCycle(cfg, names[..|names| - 1]);
      UndefinedIsNoCycle(cfg, names[|names| - 1], cfg.servers[names[|names| - 1]].dependsOn);
    }
  }

  lemma {:induction false} UndefinedIsNoCycle(cfg: Config, name: string, deps: seq<string>)
    ensures forall p :: p in UndefinedDependencies(cfg, name, deps) ==> !p.CircularDependency?
  {
    if deps != [] {
      UndefinedIsNoCycle(cfg, name, deps[..|deps| - 1]);
    }
  }

  /** The circular dependencies in a report are the cycles it was given. */
  lemma CyclesOfReport(cfg: Config, names: seq<string>, cycles: seq<seq<string>>, c: seq<string>)
    requires forall name :: name in names ==> name in cfg.servers
    ensures CircularDependency(c) in Report(cfg, names, cycles) <==> c in cycles
  {
    hide AllServerProblems;
    ServersReportNoCycle(cfg, names);
    assert forall p :: p in Report(cfg, names, cycles) && p.CircularDependency? ==> p in Circular(cycles);
    if c in cycles {
      var i :| 0 <= i < |cycles| && cycles[i] == c;
      assert Circular(cycles)[i] == CircularDependency(c);
      assert forall p :: p in Circular(cycles) ==> p in Report(cfg, names, cycles);
    }
  }

  method SortedServers(cfg: Config) returns (names: seq<string>)
    ensures multiset(names) == multiset(cfg.servers.Keys) && Sorting.SortedBy(names, Sorting.Less)
    ensures forall name :: name in names ==> name in cfg.servers
  {
    names := Sorting.SortedNames(cfg.servers.Keys);
    forall name | name in names ensures name in cfg.servers {
      assert name in multiset(names);
      assert name in multiset(cfg.servers.Keys);
    }
  }

  /** Servers are reported in sorted order, so only the cycles depend on the search. */
  method CollectReport(cfg: Config, index: Index)
    returns (errs: seq<ValidationError>, ghost names: seq<string>, ghost cycles: seq<seq<string>>)
    ensures multiset(names) == multiset(cfg.servers.Keys) && Sorting.SortedBy(names, Sorting.Less)
    ensures forall name :: name in names ==> name in cfg.servers
    ensures cycles == [] <==> Acyclic(DependencyGraph(cfg))
    ensures IsAnswer(DependencyGraph(cfg), cycles)
    ensures Problems(errs) == Report(cfg, names, cycles)
    ensures Problems(errs) ==
      (if cfg.version == "1" then [] else [UnsupportedVersion]) + AllServerProblems(cfg, names) +
      seq(|cycles|, i requires 0 <= i < |cycles| => CircularDependency(cycles[i])) +
      (if cfg.global.Some? then [GlobalProblem(cfg.global.value)] else [])
    ensures Located(index.file, index.paths, errs)
  {
    hide IsBestLine, AllServerProblems, IsCycle, IsClosedWalk, IsFeedbackArcSet, IsStartOrder, KeysIdentifyCycles;
    hide IsAnswer;
    hide KeysTellApart, DistinctKeys, OneForEachEdge, CommaFree;
    var list := new ErrorList(index);
    if cfg.version != "1" {
      list.Add(UnsupportedVersion);
    }
    assert list.reported == VersionProblems(cfg);
    var sorted := SortedServers(cfg);
    list.AddServers(cfg, sorted);
    var reported, _ := FindDependencyCycles(DependencyGraph(cfg));
    list.AddCycles(reported);
    ghost var before := list.reported;
    assert before == VersionProblems(cfg) + AllServerProblems(cfg, sorted) + Circular(reported);
    if cfg.global.Some? {
      list.Add(GlobalProblem(cfg.global.value));
    }
    assert list.reported == before + GlobalProblems(cfg);
    errs, names, cycles := list.errs, sorted, reported;
  }

  /** Every error carries the line of the longest indexed ancestor of its path. */
  method CollectValidationErrors(cfg: Config, index: Index) returns (errs: seq<ValidationError>)
    ensures errs == [] <==> Passes(cfg) && Acyclic(DependencyGraph(cfg))
    ensures forall name, p :: StopsAt(cfg, name, p) ==> p in Problems(errs)
    ensures cfg.version != "1" ==> UnsupportedVersion in Problems(errs)
    ensures cfg.global.Some? ==> GlobalProblem(cfg.global.value) in Problems(errs)
    ensures Located(index.file, index.paths, errs)
    ensures forall c :: CircularDependency(c) in Problems(errs) ==> IsCycle(DependencyGraph(cfg), c)
    ensures CommaFree(DependencyGraph(cfg)) ==>
      forall w :: IsClosedWalk(DependencyGraph(cfg), w) ==> CycleIsReported(Problems(errs), w)
    ensures exists cycles ::
      IsAnswer(DependencyGraph(cfg), cycles) && forall c :: CircularDependency(c) in Problems(errs) <==> c in cycles
  {
    ghost var names, cycles;
    errs, names, cycles := CollectReport(cfg, index);
    ReportIsComplete(cfg, names, cycles);
    forall c ensures CircularDependency(c) in Problems(errs) <==> c in cycles {
      CyclesOfReport(cfg, names, cycles, c);
    }
    AnswerIsSound(DependencyGraph(cfg), cycles, Problems(errs));
  }

  /** A reported circular dependency is closed by an edge of `w`. */
  ghost predicate CycleIsReported(problems: seq<Problem>, w: seq<string>) {
    exists i, c :: 0 <= i < |w| - 1 && CircularDependency(c) in problems && Closes(c, w[i], w[i + 1])
  }

  lemma AnswerIsSound(g: Graph, cycles: seq<seq<string>>, problems: seq<Problem>)
    requires IsAnswer(g, cycles) && forall c :: CircularDependency(c) in problems <==> c in cycles
    ensures forall c :: c in cycles ==> IsCycle(g, c)
    ensures CommaFree(g) ==> forall w :: IsClosedWalk(g, w) ==> CycleIsReported(problems, w)
  {
    hide SearchResult, IsCycle, IsClosedWalk, Closes, KeysTellApart, KeysIdentifyCycles;
    var finished, found :| SearchResult(g, finished, found, cycles);
    ReportedCycles(g, finished, found, cycles);
    CommaFreeKeysIdentifyCycles(g);
    ArcSetExactly(g, finished, found, cycles);
    forall w | CommaFree(g) && IsClosedWalk(g, w) ensures CycleIsReported(problems, w) {
      var i :| 0 <= i < |w| - 1 && Covered(cycles, w[i], w[i + 1]);
      var c :| c in cycles && Closes(c, w[i], w[i + 1]);
      assert CircularDependency(c) in problems;
    }
  }
}
