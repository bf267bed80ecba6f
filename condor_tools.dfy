/** The scheduler text protocol and command builders of `aws/condor_tools.py`:
    the shell strings handed to the BOSCO gateway, the `condor_q` listing
    parser and the `condor_submit` acknowledgement parser. What a spawned
    process writes to stdout is an input here; nothing is spawned. */
module CondorTools {
  import opened Text

  const CondorQ := "condor_q"
  const CondorSubmit := "condor_submit"
  const CondorRm := "condor_rm"
  const BoscoCluster := "bosco_cluster"

  // ---------------------------------------------------------------------
  // run_bosco_command

  /** What one `run_bosco_command` call hands to the shell and returns. */
  datatype BoscoRun = BoscoRun(shell: string, lines: seq<string>)

  /** `run_bosco_command(command)`: the command runs after sourcing the
      deployment's BOSCO_SETENV script `setenv`; the result is the shell's
      stdout `stdout` split into lines (see RunBoscoCommandLines). */
  function RunBoscoCommand(setenv: string, command: string, stdout: string): (r: BoscoRun)
    ensures r.shell == "source " + setenv + "; " + command
    ensures forall i :: 0 <= i < |r.lines| ==> NoLineBreak(r.lines[i])
    ensures IsCanonicalOutput(stdout) ==> JoinLines(r.lines) == stdout
  {
    if IsCanonicalOutput(stdout) then JoinSplit(stdout); BoscoRun("source " + setenv + "; " + command, SplitLines(stdout))
    else BoscoRun("source " + setenv + "; " + command, SplitLines(stdout))
  }

  /** The lines `run_bosco_command` returns are, on every stdout, the one
      list of lines that, each ended by "\n", "\r\n" or "\r" (the last
      one possibly by nothing), prints that stdout. */
  lemma RunBoscoCommandLines(setenv: string, command: string, stdout: string)
    ensures var lines := RunBoscoCommand(setenv, command, stdout).lines;
            && (exists ends :: WellPrinted(lines, ends) && Terminated(lines, ends) == stdout)
            && forall ls, es :: WellPrinted(ls, es) && Terminated(ls, es) == stdout ==> lines == ls
  {
    SplitLinesPrinted(stdout);
    SplitLinesUnique(stdout);
  }

  // ---------------------------------------------------------------------
  // add_bosco_pool and remove_bosco_pool

  const AgentStart := "eval `ssh-agent`; ssh-add "
  const AgentKill := "kill $SSH_AGENT_PID;"

  /** The scheduler flavours `bosco_cluster --add` is given: the `pool_type`
      choices of the pool form. */
  predicate IsPoolType(t: string) {
    t == "condor" || t == "pbs" || t == "lsf" || t == "sge"
  }

  function ClusterAddCommand(platform: string, address: string, poolType: string): string {
    BoscoCluster + " --platform " + platform + " --add " + address + " " + poolType + ";"
  }

  /** The command `add_bosco_pool` builds: a non-empty key file is loaded into
      a fresh ssh-agent before `bosco_cluster --add` and the agent is killed
      after it. */
  function AddPoolCommand(platform: string, address: string, keypair: string, poolType: string): string {
    if keypair == [] then ClusterAddCommand(platform, address, poolType)
    else AgentStart + keypair + "; " + ClusterAddCommand(platform, address, poolType) + AgentKill
  }

  /** `add_bosco_pool`, building the command by successive appends as the
      source does (each `+=` evaluates its right-hand side first); returns
      the shell string that is run (its output is only logged). The pool
      type defaults to `condor`, as in the source. */
  method AddBoscoPool(setenv: string, stdout: string, platform: string, address: string, keypair: string,
                      poolType: string := "condor")
    returns (shell: string)
    ensures shell == "source " + setenv + "; " + AddPoolCommand(platform, address, keypair, poolType)
  {
    var command := "";
    if keypair != [] {
      command := command + (AgentStart + keypair + "; ");
      assert command == AgentStart + keypair + "; ";
    }
    ghost var start := command;
    command := command + (BoscoCluster + " --platform " + platform + " --add " + address + " " + poolType + ";");
    assert command == start + ClusterAddCommand(platform, address, poolType);
    if keypair != [] {
      command := command + AgentKill;
    }
    assert command == AddPoolCommand(platform, address, keypair, poolType);
    var run := RunBoscoCommand(setenv, command, stdout);
    shell := run.shell;
  }

  predicate EndsWith(s: string, suffix: string) {
    |suffix| <= |s| && s[|s| - |suffix|..] == suffix
  }

  /** Without a key file the command is `bosco_cluster ... <type>;`: it
      neither starts with the agent start nor ends with the agent kill. */
  lemma NoAgentWithoutKey(platform: string, address: string, poolType: string)
    requires IsPoolType(poolType)
    ensures var c := ClusterAddCommand(platform, address, poolType);
            !(AgentStart <= c) && !EndsWith(c, AgentKill)
  {
    var c := ClusterAddCommand(platform, address, poolType);
    assert c[0] == 'b' && AgentStart[0] == 'e';
    var tail := poolType + ";";
    assert c == (BoscoCluster + " --platform " + platform + " --add " + address + " ") + tail;
    assert c[|c| - 4] == tail[|tail| - 4] != 'P' == AgentKill[16];
    assert |c| >= |AgentKill| ==> c[|c| - 4] == c[|c| - |AgentKill|..][|AgentKill| - 4];
  }

  /** With a key file the command is wrapped in the agent start and kill. */
  lemma AgentAroundWithKey(platform: string, address: string, keypair: string, poolType: string)
    requires keypair != []
    ensures var c := AddPoolCommand(platform, address, keypair, poolType);
            AgentStart <= c && EndsWith(c, AgentKill)
  {
    Wrapped(AgentStart, keypair, "; ", ClusterAddCommand(platform, address, poolType), AgentKill);
  }

  lemma Wrapped(a: string, k: string, s: string, d: string, b: string)
    ensures a <= a + k + s + d + b && EndsWith(a + k + s + d + b, b)
  {
    assert a + k + s + d + b == a + (k + s + d + b);
    assert a + k + s + d + b == (a + k + s + d) + b;
  }

  /** The agent is killed exactly when it was started, and that is exactly
      when a key file was given. */
  lemma AgentKilledIffStarted(platform: string, address: string, keypair: string, poolType: string)
    requires IsPoolType(poolType)
    ensures var c := AddPoolCommand(platform, address, keypair, poolType);
            (AgentStart <= c <==> keypair != []) && (EndsWith(c, AgentKill) <==> keypair != [])
  {
    if keypair == [] {
      NoAgentWithoutKey(platform, address, poolType);
    } else {
      AgentAroundWithKey(platform, address, keypair, poolType);
    }
  }

  function RemovePoolCommand(address: string): string {
    BoscoCluster + " --remove " + address
  }

  /** The shell string `remove_bosco_pool(address)` runs. */
  function RemoveBoscoPool(setenv: string, address: string): (shell: string)
    ensures shell == RunBoscoCommand(setenv, "bosco_cluster --remove " + address, []).shell
  {
    RunBoscoCommand(setenv, RemovePoolCommand(address), []).shell
  }

  /** The removed address is exactly what follows `bosco_cluster --remove `. */
  lemma RemovePoolAddressRecoverable(setenv: string, address: string)
    ensures var shell := RemoveBoscoPool(setenv, address);
            var n := |"source " + setenv + "; bosco_cluster --remove "|;
            n <= |shell| && shell[n..] == address
  {
    var shell := RemoveBoscoPool(setenv, address);
    var prefix := "source " + setenv + "; bosco_cluster --remove ";
    assert shell == prefix + address;
  }

  // ---------------------------------------------------------------------
  // process_condor_q
  //
  // The job pattern is
  //   \s*(\d+)\.0\s+(\S+)\s+(\S+)\s+(\S+)\s+(\S+)\s+(\w)\s+(\d+)\s+(\S+)\s+(\S+)
  // matched at the start of the line and not anchored at its end. Since `\s`
  // and `\S` are complementary and every group is followed by a class that
  // its own class excludes, backtracking never finds a second way to match:
  // each maximal run is the only candidate. The parser below consumes the
  // line run by run.

  /** One `\s+\S+` step: at least one space, then a token. */
  function DropField(s: string): Option<string> {
    if !StartsWithSpace(s) then None
    else
      var t := DropSpaces(s);
      if t == [] then None else Some(DropToken(t))
  }

  function DropFields(s: string, n: nat): Option<string>
    decreases n
  {
    if n == 0 then Some(s)
    else match DropField(s)
      case None => None
      case Some(t) => DropFields(t, n - 1)
  }

  /** `(\d+)\.0` at the start of `s`: the cluster digits and what follows `.0`. */
  function ClusterPart(s: string): Option<(string, string)> {
    var id := TakeDigits(s);
    var rest := s[|id|..];
    if id == [] || |rest| < 2 || rest[0] != '.' || rest[1] != '0' then None
    else Some((id, rest[2..]))
  }

  /** Four `\s+\S+` columns, then `\s+(\w)`: the status and what follows it. */
  function StatusPart(s: string): Option<(char, string)> {
    match DropFields(s, 4)
    case None => None
    case Some(t) =>
      if !StartsWithSpace(t) then None
      else
        var u := DropSpaces(t);
        if u == [] || !IsWordChar(u[0]) then None else Some((u[0], u[1..]))
  }

  /** `\s+(\d+)\s+(\S+)\s+(\S+)`: priority, size and command columns. */
  predicate TailPart(s: string) {
    StartsWithSpace(s) &&
    var t := DropSpaces(s);
    var pri := TakeDigits(t);
    pri != [] && DropFields(t[|pri|..], 2).Some?
  }

  /** The (cluster id, status) pair of one `condor_q` row, or None when the
      job pattern does not match the line. */
  function ParseJobLine(line: string): (r: Option<(nat, char)>)
    ensures r.Some? ==> IsWordChar(r.value.1)
  {
    match ClusterPart(DropSpaces(line))
    case None => None
    case Some((id, rest)) =>
      match StatusPart(rest)
      case None => None
      case Some((status, rest')) => if TailPart(rest') then Some((DigitsValue(id), status)) else None
  }

  /** The results of `parse` on the lines it accepts, in line order. */
  function Collect<E>(parse: string -> Option<E>, lines: seq<string>): seq<E>
    decreases |lines|
  {
    if lines == [] then []
    else
      var prev := Collect(parse, lines[..|lines| - 1]);
      match parse(lines[|lines| - 1])
      case None => prev
      case Some(e) => prev + [e]
  }

  /** The (cluster id, status) pairs of the lines the job pattern matches. */
  function QueueEntries(lines: seq<string>): seq<(nat, char)> {
    Collect(ParseJobLine, lines)
  }

  /** `process_condor_q`, given the stdout `stdout` of `condor_q` run through
      `run_bosco_command`. */
  method ProcessCondorQ(setenv: string, stdout: string) returns (q: seq<(nat, char)>)
    ensures var output := RunBoscoCommand(setenv, CondorQ, stdout).lines;
            (|output| <= 6 ==> q == []) && (|output| > 6 ==> q == QueueEntries(output))
  {
    var output := RunBoscoCommand(setenv, CondorQ, stdout).lines;
    q := [];
    var noOfJobs := |output| - 6;
    if noOfJobs > 0 {
      var i := 0;
      while i < |output|
        invariant 0 <= i <= |output|
        invariant q == Collect(ParseJobLine, output[..i])
      {
        assert output[..i + 1][..i] == output[..i];
        match ParseJobLine(output[i]) {
          case Some(e) => q := q + [e];
          case None =>
        }
        i := i + 1;
      }
      assert output[..|output|] == output;
    }
  }

  lemma {:induction false} CollectAppend<E>(parse: string -> Option<E>, a: seq<string>, b: seq<string>)
    ensures Collect(parse, a + b) == Collect(parse, a) + Collect(parse, b)
    decreases |b|
  {
    if b == [] {
      assert a + b == a;
    } else {
      var ab := a + b;
      assert ab[..|ab| - 1] == a + b[..|b| - 1];
      assert ab[|ab| - 1] == b[|b| - 1];
      CollectAppend(parse, a, b[..|b| - 1]);
    }
  }

  lemma {:induction false} CollectMember<E>(parse: string -> Option<E>, lines: seq<string>, e: E)
    ensures e in Collect(parse, lines) <==> exists i :: 0 <= i < |lines| && parse(lines[i]) == Some(e)
    decreases |lines|
  {
    if lines != [] {
      var init := lines[..|lines| - 1];
      CollectMember(parse, init, e);
      if e in Collect(parse, lines) {
        if e in Collect(parse, init) {
          var i :| 0 <= i < |init| && parse(init[i]) == Some(e);
          assert lines[i] == init[i];
        } else {
          assert parse(lines[|lines| - 1]) == Some(e);
        }
      }
      if exists i :: 0 <= i < |lines| && parse(lines[i]) == Some(e) {
        var i :| 0 <= i < |lines| && parse(lines[i]) == Some(e);
        if i < |lines| - 1 {
          assert init[i] == lines[i];
        }
      }
    }
  }

  /** Entries of two stretches of output come out one after the other. */
  lemma QueueEntriesAppend(a: seq<string>, b: seq<string>)
    ensures QueueEntries(a + b) == QueueEntries(a) + QueueEntries(b)
  {
    CollectAppend(ParseJobLine, a, b);
  }

  /** A pair is listed exactly when some line parses to it. */
  lemma QueueEntriesMember(lines: seq<string>, e: (nat, char))
    ensures e in QueueEntries(lines) <==> exists i :: 0 <= i < |lines| && ParseJobLine(lines[i]) == Some(e)
  {
    CollectMember(ParseJobLine, lines, e);
  }

  /** A line on its own gives its own pair or nothing. */
  lemma QueueEntriesSingle(line: string)
    ensures QueueEntries([line]) == if ParseJobLine(line).Some? then [ParseJobLine(line).value] else []
  {
    var f: string -> Option<(nat, char)> := ParseJobLine;
    assert [line][..0] == [];
    assert Collect(f, [line]) == Collect(f, []) + (if f(line).Some? then [f(line).value] else []);
  }

  /** One row as `condor_q` prints it: the nine columns of the job pattern. */
  datatype QueueRow = QueueRow(cluster: string, owner: string, subDate: string, subTime: string,
                               runTime: string, status: char, priority: string, size: string, cmd: string)

  predicate WellFormedRow(r: QueueRow) {
    && IsDigits(r.cluster) && IsToken(r.owner) && IsToken(r.subDate) && IsToken(r.subTime)
    && IsToken(r.runTime) && IsWordChar(r.status) && IsDigits(r.priority) && IsToken(r.size) && IsToken(r.cmd)
  }

  predicate IsGap(g: string) {
    |g| > 0 && AllSpaces(g)
  }

  /** The text of row `r` of process 0 of its cluster, after leading spaces
      `lead`, with the column gaps `gaps` and anything at all after the
      command column. */
  function RowText(lead: string, r: QueueRow, gaps: seq<string>, trail: string): string
    requires |gaps| == 8
  {
    lead + (r.cluster + (".0" + (gaps[0] + (r.owner + (gaps[1] + (r.subDate + (gaps[2] + (r.subTime
      + (gaps[3] + (r.runTime + (gaps[4] + ([r.status] + (gaps[5] + (r.priority + (gaps[6] + (r.size
      + (gaps[7] + (r.cmd + trail))))))))))))))))))
  }

  lemma FieldStep(g: string, tok: string, rest: string)
    requires IsGap(g) && IsToken(tok) && (rest == [] || IsSpace(rest[0]))
    ensures DropField(g + (tok + rest)) == Some(rest)
  {
    assert (tok + rest)[0] == tok[0];
    DropSpacesConcat(g, tok + rest);
    DropTokenConcat(tok, rest);
  }

  lemma FieldPresent(g: string, t: string)
    requires IsGap(g) && t != [] && !IsSpace(t[0])
    ensures DropField(g + t).Some?
  {
    DropSpacesConcat(g, t);
  }

  lemma ClusterPartOf(cluster: string, rest: string)
    requires IsDigits(cluster)
    ensures ClusterPart(cluster + (".0" + rest)) == Some((cluster, rest))
  {
    var x1 := ".0" + rest;
    TakeDigitsConcat(cluster, x1);
    assert (cluster + x1)[|cluster|..] == x1;
    assert x1[2..] == rest;
  }

  lemma StatusPartOf(gaps: seq<string>, toks: seq<string>, status: char, rest: string)
    requires |gaps| == 5 && |toks| == 4
    requires forall k :: 0 <= k < 5 ==> IsGap(gaps[k])
    requires forall k :: 0 <= k < 4 ==> IsToken(toks[k])
    requires IsWordChar(status) && StartsWithSpace(rest)
    ensures StatusPart(gaps[0] + (toks[0] + (gaps[1] + (toks[1] + (gaps[2] + (toks[2] + (gaps[3] + (toks[3]
              + (gaps[4] + ([status] + rest)))))))))) == Some((status, rest))
  {
    var x5 := [status] + rest;
    var x4 := gaps[4] + x5;
    var x3 := gaps[3] + (toks[3] + x4);
    var x2 := gaps[2] + (toks[2] + x3);
    var x1 := gaps[1] + (toks[1] + x2);
    var x0 := gaps[0] + (toks[0] + x1);
    FieldStep(gaps[0], toks[0], x1);
    FieldStep(gaps[1], toks[1], x2);
    FieldStep(gaps[2], toks[2], x3);
    FieldStep(gaps[3], toks[3], x4);
    assert DropFields(x0, 4) == Some(x4);
    assert x5[0] == status && x5[1..] == rest;
    DropSpacesConcat(gaps[4], x5);
  }

  lemma TailPartOf(g0: string, priority: string, g1: string, size: string, g2: string, cmd: string)
    requires IsGap(g0) && IsDigits(priority) && IsGap(g1) && IsToken(size) && IsGap(g2)
    requires cmd != [] && !IsSpace(cmd[0])
    ensures TailPart(g0 + (priority + (g1 + (size + (g2 + cmd)))))
  {
    var x1 := g1 + (size + (g2 + cmd));
    assert (priority + x1)[0] == priority[0];
    DropSpacesConcat(g0, priority + x1);
    TakeDigitsConcat(priority, x1);
    assert (priority + x1)[|priority|..] == x1;
    FieldStep(g1, size, g2 + cmd);
    FieldPresent(g2, cmd);
  }

  /** Every well-formed row of process 0 is listed with its cluster id and status. */
  lemma ParseRow(lead: string, r: QueueRow, gaps: seq<string>, trail: string)
    requires AllSpaces(lead) && WellFormedRow(r)
    requires |gaps| == 8 && forall k :: 0 <= k < 8 ==> IsGap(gaps[k])
    ensures ParseJobLine(RowText(lead, r, gaps, trail)) == Some((DigitsValue(r.cluster), r.status))
  {
    var x9 := r.cmd + trail;
    var x7 := gaps[5] + (r.priority + (gaps[6] + (r.size + (gaps[7] + x9))));
    var x2 := gaps[0] + (r.owner + (gaps[1] + (r.subDate + (gaps[2] + (r.subTime + (gaps[3] + (r.runTime
                + (gaps[4] + ([r.status] + x7)))))))));
    var x0 := r.cluster + (".0" + x2);
    assert RowText(lead, r, gaps, trail) == lead + x0;
    assert x0[0] == r.cluster[0];
    DropSpacesConcat(lead, x0);
    ClusterPartOf(r.cluster, x2);
    StatusPartOf(gaps[..5], [r.owner, r.subDate, r.subTime, r.runTime], r.status, x7);
    assert x9[0] == r.cmd[0];
    TailPartOf(gaps[5], r.priority, gaps[6], r.size, gaps[7], x9);
  }

  /** What `\s*` consumed: `s` is spaces followed by DropSpaces(s). */
  lemma {:induction false} SpacesPrefix(s: string) returns (w: string)
    ensures AllSpaces(w) && s == w + DropSpaces(s)
    decreases |s|
  {
    if StartsWithSpace(s) {
      var w' := SpacesPrefix(s[1..]);
      w := [s[0]] + w';
      assert s == [s[0]] + s[1..];
    } else {
      w := [];
    }
  }

  /** What a maximal `\S*` consumed: `s` is a token followed by DropToken(s). */
  lemma {:induction false} TokenPrefix(s: string) returns (tok: string)
    ensures (forall i :: 0 <= i < |tok| ==> !IsSpace(tok[i])) && s == tok + DropToken(s)
    ensures s != [] && !IsSpace(s[0]) ==> tok != []
    decreases |s|
  {
    if s != [] && !IsSpace(s[0]) {
      var t' := TokenPrefix(s[1..]);
      tok := [s[0]] + t';
      assert s == [s[0]] + s[1..];
    } else {
      tok := [];
    }
  }

  /** A `\s+\S+` step that succeeded consumed a gap and a token. */
  lemma FieldParts(s: string) returns (g: string, tok: string)
    requires DropField(s).Some?
    ensures IsGap(g) && IsToken(tok) && s == g + (tok + DropField(s).value)
  {
    g := SpacesPrefix(s);
    var t := DropSpaces(s);
    tok := TokenPrefix(t);
    assert StartsWithSpace(s) && !StartsWithSpace(t) && t != [];
  }

  /** A `\s+` that succeeded before a character that is no space. */
  lemma GapParts(s: string) returns (g: string)
    requires StartsWithSpace(s)
    ensures IsGap(g) && s == g + DropSpaces(s)
  {
    g := SpacesPrefix(s);
    assert !StartsWithSpace(DropSpaces(s));
  }

  /** What StatusPart accepted: four columns and the status, with their gaps. */
  lemma StatusParts(s: string) returns (gaps: seq<string>, toks: seq<string>)
    requires StatusPart(s).Some?
    ensures |gaps| == 5 && |toks| == 4
    ensures (forall k :: 0 <= k < 5 ==> IsGap(gaps[k])) && forall k :: 0 <= k < 4 ==> IsToken(toks[k])
    ensures s == gaps[0] + (toks[0] + (gaps[1] + (toks[1] + (gaps[2] + (toks[2] + (gaps[3] + (toks[3]
              + (gaps[4] + ([StatusPart(s).value.0] + StatusPart(s).value.1)))))))))
  {
    var status := StatusPart(s).value.0;
    var rest := StatusPart(s).value.1;
    var y1 := DropField(s).value;
    var g0, t0 := FieldParts(s);
    var y2 := DropField(y1).value;
    var g1, t1 := FieldParts(y1);
    var y3 := DropField(y2).value;
    var g2, t2 := FieldParts(y2);
    var y4 := DropField(y3).value;
    var g3, t3 := FieldParts(y3);
    assert DropFields(s, 4) == Some(y4);
    var g4 := GapParts(y4);
    assert DropSpaces(y4) == [status] + rest;
    gaps := [g0, g1, g2, g3, g4];
    toks := [t0, t1, t2, t3];
  }

  /** What TailPart accepted: priority, size and command, with their gaps,
      and whatever follows. */
  lemma TailParts(s: string) returns (gaps: seq<string>, priority: string, size: string, cmd: string, trail: string)
    requires TailPart(s)
    ensures |gaps| == 3 && forall k :: 0 <= k < 3 ==> IsGap(gaps[k])
    ensures IsDigits(priority) && IsToken(size) && IsToken(cmd)
    ensures s == gaps[0] + (priority + (gaps[1] + (size + (gaps[2] + (cmd + trail)))))
  {
    var g5 := GapParts(s);
    var t := DropSpaces(s);
    priority := TakeDigits(t);
    var z1 := t[|priority|..];
    assert t == priority + z1;
    var z2 := DropField(z1).value;
    var g6;
    g6, size := FieldParts(z1);
    trail := DropField(z2).value;
    var g7;
    g7, cmd := FieldParts(z2);
    gaps := [g5, g6, g7];
  }

  /** What ClusterPart accepted: the cluster digits and ".0". */
  lemma ClusterParts(s: string)
    requires ClusterPart(s).Some?
    ensures IsDigits(ClusterPart(s).value.0) && s == ClusterPart(s).value.0 + (".0" + ClusterPart(s).value.1)
  {
    var id := TakeDigits(s);
    var rest := s[|id|..];
    assert s == id + rest;
    assert rest == rest[..2] + rest[2..] && rest[..2] == ".0";
  }

  /** The text of a row, written out from the gaps before its status
      `sg`, its first four columns `st` and the gaps after its status `tg`;
      `x2` is the text after ".0" and `x7` the text after the status. */
  lemma RowTextOfParts(lead: string, r: QueueRow, sg: seq<string>, st: seq<string>, tg: seq<string>, trail: string,
                       x2: string, x7: string)
    requires |sg| == 5 && |st| == 4 && |tg| == 3
    requires r.owner == st[0] && r.subDate == st[1] && r.subTime == st[2] && r.runTime == st[3]
    requires x7 == tg[0] + (r.priority + (tg[1] + (r.size + (tg[2] + (r.cmd + trail)))))
    requires x2 == sg[0] + (st[0] + (sg[1] + (st[1] + (sg[2] + (st[2] + (sg[3] + (st[3] + (sg[4] + ([r.status] + x7)))))))))
    ensures |sg + tg| == 8
    ensures RowText(lead, r, sg + tg, trail) == lead + (r.cluster + (".0" + x2))
  {
    var gaps := sg + tg;
    assert gaps[0] == sg[0] && gaps[1] == sg[1] && gaps[2] == sg[2] && gaps[3] == sg[3] && gaps[4] == sg[4];
    assert gaps[5] == tg[0] && gaps[6] == tg[1] && gaps[7] == tg[2];
  }

  /** The gaps before and after the status together are the eight gaps of a row. */
  lemma GapsJoin(sg: seq<string>, tg: seq<string>)
    requires |sg| == 5 && |tg| == 3
    requires (forall k :: 0 <= k < 5 ==> IsGap(sg[k])) && forall k :: 0 <= k < 3 ==> IsGap(tg[k])
    ensures forall k :: 0 <= k < 8 ==> IsGap((sg + tg)[k])
  {
    forall k | 0 <= k < 8
      ensures IsGap((sg + tg)[k])
    {
      if k < 5 {
        assert (sg + tg)[k] == sg[k];
      } else {
        assert (sg + tg)[k] == tg[k - 5];
      }
    }
  }

  /** The three stages of an accepted line, by name. */
  lemma AcceptedStages(line: string)
    requires ParseJobLine(line).Some?
    ensures ClusterPart(DropSpaces(line)).Some?
    ensures var x2 := ClusterPart(DropSpaces(line)).value.1;
            StatusPart(x2).Some? && TailPart(StatusPart(x2).value.1)
            && ParseJobLine(line) == Some((DigitsValue(ClusterPart(DropSpaces(line)).value.0), StatusPart(x2).value.0))
  {
  }

  lemma Assemble(line: string, lead: string, x0: string, x2: string, r: QueueRow, gaps: seq<string>, trail: string)
    requires |gaps| == 8 && line == lead + x0 && x0 == r.cluster + (".0" + x2)
    requires RowText(lead, r, gaps, trail) == lead + (r.cluster + (".0" + x2))
    ensures line == RowText(lead, r, gaps, trail)
  {
  }

  /** The row a line is made of when its three stages succeed. */
  lemma RowOfLine(line: string) returns (lead: string, r: QueueRow, gaps: seq<string>, trail: string)
    requires ClusterPart(DropSpaces(line)).Some?
    requires StatusPart(ClusterPart(DropSpaces(line)).value.1).Some?
    requires TailPart(StatusPart(ClusterPart(DropSpaces(line)).value.1).value.1)
    ensures AllSpaces(lead) && WellFormedRow(r)
    ensures |gaps| == 8 && forall k :: 0 <= k < 8 ==> IsGap(gaps[k])
    ensures line == RowText(lead, r, gaps, trail)
    ensures r.cluster == ClusterPart(DropSpaces(line)).value.0
    ensures r.status == StatusPart(ClusterPart(DropSpaces(line)).value.1).value.0
  {
    lead := SpacesPrefix(line);
    var x0 := DropSpaces(line);
    var cluster := ClusterPart(x0).value.0;
    var x2 := ClusterPart(x0).value.1;
    ClusterParts(x0);
    var status := StatusPart(x2).value.0;
    var x7 := StatusPart(x2).value.1;
    var sg, st := StatusParts(x2);
    var tg, priority, size, cmd, trail' := TailParts(x7);
    trail := trail';
    r := QueueRow(cluster, st[0], st[1], st[2], st[3], status, priority, size, cmd);
    gaps := sg + tg;
    RowTextOfParts(lead, r, sg, st, tg, trail, x2, x7);
    GapsJoin(sg, tg);
    Assemble(line, lead, x0, x2, r, gaps, trail);
  }

  /** Every line the parser accepts has the job pattern's shape: leading
      spaces, a well-formed row of process 0 and anything after it; the pair
      is its cluster id and status. With ParseRow, ParseJobLine accepts
      exactly the lines the job pattern matches. */
  lemma ParseJobLineSound(line: string, e: (nat, char))
    ensures ParseJobLine(line) == Some(e) ==>
              exists lead, r, gaps, trail :: && AllSpaces(lead) && WellFormedRow(r)
                                              && |gaps| == 8 && (forall k :: 0 <= k < 8 ==> IsGap(gaps[k]))
                                              && line == RowText(lead, r, gaps, trail)
                                              && e == (DigitsValue(r.cluster), r.status)
  {
    if ParseJobLine(line) == Some(e) {
      AcceptedStages(line);
      var lead, r, gaps, trail := RowOfLine(line);
      assert e == (DigitsValue(r.cluster), r.status);
    }
  }

  /** After `.0`, a process number that goes on with another digit leaves
      no column gap, so the status stage fails. */
  lemma LongProcessRejected(after: string)
    requires StartsWithDigit(after)
    ensures StatusPart(after) == None
  {
    assert DropField(after) == None;
  }

  /** After the cluster digits and `.`, a process number other than `0`
      either fails the `.0` test or leaves a digit right after `.0`. */
  lemma ClusterOfNonZeroProcess(cluster: string, process: string, rest: string)
    requires IsDigits(cluster) && IsDigits(process) && process != "0"
    ensures var c := ClusterPart(cluster + ("." + (process + rest)));
            c.Some? ==> StartsWithDigit(c.value.1)
  {
    var x1 := "." + (process + rest);
    TakeDigitsConcat(cluster, x1);
    assert (cluster + x1)[|cluster|..] == x1;
    if process[0] == '0' {
      assert |process| > 1;
      assert x1[2..][0] == process[1];
    }
  }

  /** A row of any process other than 0 is not listed. */
  lemma NonZeroProcessDropped(lead: string, cluster: string, process: string, rest: string)
    requires AllSpaces(lead) && IsDigits(cluster) && IsDigits(process) && process != "0"
    ensures ParseJobLine(lead + (cluster + ("." + (process + rest)))) == None
  {
    var x0 := cluster + ("." + (process + rest));
    assert x0[0] == cluster[0];
    DropSpacesConcat(lead, x0);
    ClusterOfNonZeroProcess(cluster, process, rest);
    var c := ClusterPart(x0);
    if c.Some? {
      LongProcessRejected(c.value.1);
    }
  }

  /** The sample row shown in the source's comment on `process_condor_q`,
      column by column. */
  const SampleRow := "18756" + (".0" + ("   " + ("ed" + ("              " + ("1/7" + ("  " + ("11:45"
    + ("   " + ("0+03:19:53" + (" " + ("R" + ("  " + ("0" + ("   " + ("22.0" + (" " + "CopasiSE.$$(OpSys)"))))))))))))))))

  lemma SampleClusterValue()
    ensures DigitsValue("18756") == 18756
  {
    assert "18756"[..4] == "1875";
    assert "1875"[..3] == "187";
    assert "187"[..2] == "18";
    assert "18"[..1] == "1";
  }

  /** The sample row is listed as cluster 18756 with status R. */
  lemma SampleRowParses()
    ensures ParseJobLine(SampleRow) == Some((18756, 'R'))
  {
    var r := QueueRow("18756", "ed", "1/7", "11:45", "0+03:19:53", 'R', "0", "22.0", "CopasiSE.$$(OpSys)");
    var gaps := ["   ", "              ", "  ", "   ", " ", "  ", "   ", " "];
    assert "R" == [r.status];
    assert r.cmd + "" == r.cmd;
    assert RowText("", r, gaps, "") == SampleRow;
    ParseRow("", r, gaps, "");
    SampleClusterValue();
  }

  /** The column header line of the listing. */
  const HeaderLine := " " + ("ID" + ("      " + ("OWNER" + ("            " + ("SUBMITTED" + ("     " + ("RUN_TIME"
    + (" " + ("ST" + (" " + ("PRI" + (" " + ("SIZE" + (" " + "CMD"))))))))))))))

  /** The column header is skipped because it does not match, not by its position. */
  lemma HeaderLineSkipped()
    ensures ParseJobLine(HeaderLine) == None
  {
    var columns := HeaderLine[1..];
    assert HeaderLine == " " + columns && columns[0] == 'I';
    DropSpacesConcat(" ", columns);
  }

  /** A listing of six non-matching lines and the sample row gives one pair. */
  lemma SampleListing(header: seq<string>)
    requires |header| == 6 && forall i :: 0 <= i < 6 ==> ParseJobLine(header[i]) == None
    ensures QueueEntries(header + [SampleRow]) == [(18756, 'R')]
  {
    QueueEntriesAppend(header, [SampleRow]);
    if QueueEntries(header) != [] {
      QueueEntriesMember(header, QueueEntries(header)[0]);
      assert false;
    }
    QueueEntriesSingle(SampleRow);
    SampleRowParses();
  }

  // ---------------------------------------------------------------------
  // condor_submit and condor_rm

  const AckMarker := "submitted to cluster "

  /** `t` starts with the marker followed by at least one digit. */
  predicate AckStarts(t: string) {
    |t| > |AckMarker| && t[..|AckMarker|] == AckMarker && IsDigit(t[|AckMarker|])
  }

  /** The pattern `submitted to cluster (\d+).*` matches at position `p`. */
  predicate IsAckAt(s: string, p: nat) {
    p <= |s| && AckStarts(s[p..])
  }

  /** The last position before `k` where the acknowledgement matches. */
  function LastAckBefore(s: string, k: nat): (r: Option<nat>)
    requires k <= |s|
    ensures r.Some? ==> r.value < k && IsAckAt(s, r.value) && forall q: nat :: r.value < q < k ==> !IsAckAt(s, q)
    ensures r.None? ==> forall q: nat :: q < k ==> !IsAckAt(s, q)
    decreases k
  {
    if k == 0 then None
    else if IsAckAt(s, k - 1) then Some(k - 1)
    else LastAckBefore(s, k - 1)
  }

  /** The cluster number `condor_submit` reports. The pattern
      `[\s\S]*submitted to cluster (?P<id>\d+).*` is matched at the start of
      the output: the greedy `[\s\S]*` settles on the LAST position where the
      marker is followed by a digit, and the id is the whole digit run there.
      -1 when there is no such position. */
  function ParseSubmitAck(ack: string): (id: int)
    ensures id >= -1
    ensures id == -1 <==> forall p: nat :: !IsAckAt(ack, p)
  {
    match LastAckBefore(ack, |ack|)
    case None => -1
    case Some(p) => DigitsValue(TakeDigits(ack[p + |AckMarker|..]))
  }

  /** Only the first character of the marker is 's' among those followed by 'u'. */
  lemma MarkerHasNoBorder(j: nat)
    requires 1 <= j < |AckMarker|
    ensures AckMarker[j] != 's' || (j + 1 < |AckMarker| && AckMarker[j + 1] != 'u')
  {

  }

  /** Where the acknowledgement matches, the text there starts with "su". */
  lemma AckAtShape(s: string, q: nat)
    ensures IsAckAt(s, q) ==> q + 1 < |s| && s[q] == 's' && s[q + 1] == 'u'
  {
    if IsAckAt(s, q) {
      var t := s[q..];
      assert t[..|AckMarker|] == AckMarker;
      assert t[0] == AckMarker[0] && t[1] == AckMarker[1];
    }
  }

  /** An acknowledgement whose last marker is followed by `digits` reports `int(digits)`. */
  lemma AckRoundTrip(pre: string, digits: string, post: string)
    requires IsDigits(digits) && !StartsWithDigit(post)
    requires forall q: nat :: !IsAckAt(post, q)
    ensures ParseSubmitAck(pre + (AckMarker + (digits + post))) == DigitsValue(digits)
  {
    var m := |AckMarker|;
    var tail := AckMarker + (digits + post);
    var s := pre + tail;
    var n := |pre|;
    assert s[n..] == tail;
    assert tail[..m] == AckMarker && tail[m] == digits[0];
    assert IsAckAt(s, n);
    forall q: nat | n < q
      ensures !IsAckAt(s, q)
    {
      AckAtShape(s, q);
      if q < n + m {
        var j := q - n;
        MarkerHasNoBorder(j);
        assert s[q] == AckMarker[j];
        if j + 1 < m {
          assert s[q + 1] == AckMarker[j + 1];
        }
      } else if q < n + m + |digits| {
        assert s[q] == digits[q - n - m];
      } else if q <= |s| {
        var off := n + m + |digits|;
        assert s[q..] == post[q - off..];
        assert !IsAckAt(post, q - off);
      }
    }
    var v := LastAckBefore(s, |s|);
    assert v == Some(n);
    assert s[n + m..] == digits + post;
    TakeDigitsConcat(digits, post);
  }

  /** The acknowledgement of a successful submission of two jobs. */
  lemma SampleAck()
    ensures ParseSubmitAck("2 job(s) " + (AckMarker + ("18756" + ".\n"))) == 18756
  {
    forall q: nat
      ensures !IsAckAt(".\n", q)
    {
    }
    AckRoundTrip("2 job(s) ", "18756", ".\n");
    SampleClusterValue();
  }

  predicate AllSlashes(s: string) {
    forall i :: 0 <= i < |s| ==> s[i] == '/'
  }

  predicate NoSlash(s: string) {
    forall i :: 0 <= i < |s| ==> s[i] != '/'
  }

  /** One past the last '/' of `p`, or 0 when `p` has none. */
  function AfterLastSlash(p: string): (i: nat)
    ensures i <= |p| && NoSlash(p[i..])
    ensures i > 0 ==> p[i - 1] == '/'
    decreases |p|
  {
    if p == [] then 0
    else if p[|p| - 1] == '/' then |p|
    else
      var i := AfterLastSlash(p[..|p| - 1]);
      assert p[i..] == p[..|p| - 1][i..] + [p[|p| - 1]];
      i
  }

  function StripTrailingSlashes(s: string): (r: string)
    ensures r <= s && AllSlashes(s[|r|..])
    ensures r == [] || r[|r| - 1] != '/'
    decreases |s|
  {
    if s != [] && s[|s| - 1] == '/' then
      var r := StripTrailingSlashes(s[..|s| - 1]);
      assert s[|r|..] == s[..|s| - 1][|r|..] + ['/'];
      r
    else s
  }

  /** `os.path.split` (POSIX): the tail is the maximal slash-free suffix; the
      head is what precedes it, with its trailing slashes removed unless it
      consists of slashes only. */
  function PathSplit(p: string): (r: (string, string))
    ensures NoSlash(r.1) && |r.1| <= |p| && r.1 == p[|p| - |r.1|..]
    ensures |r.1| == |p| || p[|p| - |r.1| - 1] == '/'
    ensures var dir := p[..|p| - |r.1|];
            (AllSlashes(dir) ==> r.0 == dir) &&
            (!AllSlashes(dir) ==> r.0 != [] && r.0 <= dir && AllSlashes(dir[|r.0|..]) && r.0[|r.0| - 1] != '/')
  {
    var i := AfterLastSlash(p);
    var head := p[..i];
    if head != [] && !AllSlashes(head) then
      var h := StripTrailingSlashes(head);
      assert h != [];
      (h, p[i..])
    else (head, p[i..])
  }

  /** The head is empty exactly for a bare file name. */
  lemma EmptyHeadIffBareName(p: string)
    ensures PathSplit(p).0 == [] <==> NoSlash(p)
  {
    var t := PathSplit(p).1;
    var dir := p[..|p| - |t|];
    if !NoSlash(p) {
      var k :| 0 <= k < |p| && p[k] == '/';
      assert k < |dir| && dir[k] == '/';
    }
  }

  /** What `condor_submit` is invoked with and what it reports. */
  datatype SubmitCall = SubmitCall(argv: seq<string>, cwd: string, clusterId: int)

  /** `condor_submit(condor_file)`, given the submit command's stdout. The
      command runs in the directory part of the file's path; the reported id
      is the acknowledgement's (see AckRoundTrip), and -1 exactly when no
      acknowledgement is found. The caller passes a path with a directory
      part, as the source asks: for a bare file name the directory is empty
      and `Popen` raises (see EmptyHeadIffBareName). */
  function CondorSubmitCall(condorFile: string, stdout: string): (r: SubmitCall)
    requires !NoSlash(condorFile)
    ensures r.argv == [CondorSubmit, condorFile]
    ensures r.cwd <= condorFile && NoSlash(condorFile[|condorFile| - |PathSplit(condorFile).1|..])
    ensures r.cwd == PathSplit(condorFile).0 && r.cwd != []
    ensures r.clusterId == ParseSubmitAck(stdout)
    ensures r.clusterId >= -1
    ensures r.clusterId == -1 <==> forall p: nat :: !IsAckAt(stdout, p)
  {
    EmptyHeadIffBareName(condorFile);
    SubmitCall([CondorSubmit, condorFile], PathSplit(condorFile).0, ParseSubmitAck(stdout))
  }

  /** The argv of `condor_rm(queue_id)`: the id is passed as its decimal text. */
  function CondorRmArgv(queueId: int): (argv: seq<string>)
    ensures |argv| == 2 && argv[0] == CondorRm
    ensures ParseIntText(argv[1]) == Some(queueId)
    ensures IsCanonicalNumeral(argv[1])
  {
    IntToStringRoundTrip(queueId);
    [CondorRm, IntToString(queueId)]
  }
}
