/** The decision record and the signoff matrix against their generators: what exactly the validators leave to
    the author of a record, and what an accepted record says about actions, phases and commands. */
module SignoffRecords {
  import opened Wrappers
  import opened Text
  import opened Files
  import opened Keys
  import opened Attachments
  import opened Signoffs
  import opened Counting

  // ---------------------------------------------------------------- records and generated records

  /** A list of pending actions that agrees with the beginning of another one, apart from the phase, the owner
      role and the blocker type. */
  predicate PendingAlike(listed: seq<PendingAction>, generated: seq<PendingAction>) {
    && |listed| <= |generated|
    && forall i | 0 <= i < |listed| ::
         generated[i] == listed[i].(phase := generated[i].phase, ownerRole := generated[i].ownerRole,
                                    blockerType := generated[i].blockerType)
  }

  /** Required approvals that agree apart from their status. */
  predicate ApprovalsAlike(required: seq<RequiredApproval>, generated: seq<RequiredApproval>) {
    && |required| == |generated|
    && forall i | 0 <= i < |required| :: generated[i] == required[i].(status := generated[i].status)
  }

  predicate RecordsAlike(record: DecisionRecord, generated: DecisionRecord) {
    && generated == record.(requiredApprovals := generated.requiredApprovals,
                            pendingActions := generated.pendingActions)
    && ApprovalsAlike(record.requiredApprovals, generated.requiredApprovals)
    && PendingAlike(record.pendingActions, generated.pendingActions)
  }

  /** The validator accepts exactly the records that the generator would write from the same documents at the same
      time, apart from the status of the required approvals and from cuts and three fields of the pending actions. */
  lemma {:induction false} DecisionExactly(
      host: Host, record: DecisionRecord, gatePath: string, actionsPath: string, gapsPath: string,
      gate: PhaseGate, register: ActionRegister, gaps: GapMatrix)
    ensures DecisionValid(host, record, gatePath, actionsPath, gapsPath, gate, register, gaps) <==>
            && IsTimestamp(host, record.generatedAt) && record.format == "sentinel-phase-decision-record-v1"
            && gate.format == "sentinel-phase-gate-validation-v1"
            && register.format == "sentinel-phase-action-register-v1" && register.phaseGatePath == gatePath
            && gaps.format == "sentinel-phase-gap-matrix-v1" && gaps.phaseCount == |register.actions|
            && gaps.environment != "" && gaps.owner != "" && gaps.status != ""
            && register.commands.scripts == gaps.commands.scripts
            && RecordsAlike(record,
                 PrepareDecision(gatePath, actionsPath, gapsPath, record.generatedAt, gate, register, gaps))
  {
    hide IsTimestamp, SortedUnique, Unique, Pending, MissingIn, Signoffs.KeysOf, OwnedBy, SummarizeKeys,
      ApprovalsAlike, PendingAlike, Listed, Approvals;
    var generated := PrepareDecision(gatePath, actionsPath, gapsPath, record.generatedAt, gate, register, gaps);
    PendingExactly(record.pendingActions, Pending(register.actions));
    ApprovalsExactly(record.requiredApprovals, generated.decision, Unique(Owners(register.actions)), register.actions);
  }

  lemma {:induction false} PendingExactly(listed: seq<PendingAction>, pending: seq<Action>)
    ensures PendingListed(listed, pending) <==> PendingAlike(listed, Listed(pending))
  {
  }

  lemma {:induction false} ApprovalsExactly(
      required: seq<RequiredApproval>, decision: string, roles: seq<string>, actions: seq<Action>)
    ensures ApprovalsAlike(required, Approvals(decision, roles, actions)) <==>
            && |required| == |roles|
            && forall i | 0 <= i < |roles| ::
                 required[i].ownerRole == roles[i]
                 && required[i].evidenceKeys == SortedUnique(Signoffs.KeysOf(OwnedBy(actions, roles[i])))
  {
    hide SortedUnique, Signoffs.KeysOf, OwnedBy;
  }

  /** Actions of an approval that agree apart from the phase and the blocker type. */
  predicate ActionsAlike(listed: seq<ApprovalAction>, generated: seq<ApprovalAction>) {
    && |listed| == |generated|
    && forall i | 0 <= i < |listed| ::
         generated[i] == listed[i].(phase := generated[i].phase, blockerType := generated[i].blockerType)
  }

  predicate ApprovalAlike(approval: Approval, generated: Approval) {
    && generated == approval.(actions := generated.actions, requiredEvidenceCount := 4)
    && approval.requiredEvidenceCount >= 4
    && ActionsAlike(approval.actions, generated.actions)
  }

  predicate MatricesAlike(matrix: Matrix, generated: Matrix) {
    && generated == matrix.(approvals := generated.approvals)
    && |matrix.approvals| == |generated.approvals|
    && forall i | 0 <= i < |matrix.approvals| :: ApprovalAlike(matrix.approvals[i], generated.approvals[i])
  }

  /** The same for the signoff matrix: free are a longer list of required evidence, and the phase and blocker type
      of the actions of an approval. */
  lemma {:induction false} MatrixExactly(
      host: Host, matrix: Matrix, decisionPath: string, actionsPath: string,
      decision: DecisionRecord, register: ActionRegister)
    ensures MatrixValid(host, matrix, decisionPath, actionsPath, decision, register) <==>
            && IsTimestamp(host, matrix.generatedAt)
            && decision.format == "sentinel-phase-decision-record-v1"
            && register.format == "sentinel-phase-action-register-v1"
            && matrix.format == "sentinel-phase-signoff-matrix-v1"
            && decision.actionRegisterPath == actionsPath
            && decision.keys.actionKeys == SortedUnique(Signoffs.KeysOf(register.actions))
            && decision.coverage.actionScripts == register.commands.scripts
            && MatricesAlike(matrix,
                 PrepareMatrix(decisionPath, actionsPath, matrix.generatedAt, decision, register))
  {
    hide IsTimestamp, SortedUnique, Unique, Signoffs.KeysOf, OwnedBy, CountStatus, SumPending, ApprovalAlike,
      ApprovalValid, Approve, Owners;
    var roles := Unique(Owners(register.actions));
    var generated := PrepareMatrix(decisionPath, actionsPath, matrix.generatedAt, decision, register);
    if |matrix.approvals| == |roles| {
      forall i | 0 <= i < |roles|
        ensures ApprovalValid(matrix.approvals[i], decision.decision, register, roles[i], i) <==>
                ApprovalAlike(matrix.approvals[i], generated.approvals[i])
      {
        ApprovalExactly(matrix.approvals[i], decision.decision, register, roles[i], i);
      }
      if forall i | 0 <= i < |roles| :: ApprovalAlike(matrix.approvals[i], generated.approvals[i]) {
        SummariesAlike(matrix.approvals, generated.approvals);
      }
    }
  }

  lemma {:induction false} ApprovalExactly(
      approval: Approval, decision: string, register: ActionRegister, role: string, index: nat)
    ensures ApprovalValid(approval, decision, register, role, index) <==>
            ApprovalAlike(approval, Approve(decision, register, role, index))
  {
    hide SortedUnique, Unique, Pending, Signoffs.KeysOf, OwnedBy, AllScripts, Decimal, CommandScriptsFor, PadTwo,
      ApprovalStatus, BlockersOf;
  }

  lemma {:induction false} SummariesAlike(a: seq<Approval>, b: seq<Approval>)
    requires |a| == |b| && forall i | 0 <= i < |a| :: ApprovalAlike(a[i], b[i])
    ensures SumPending(a) == SumPending(b)
    ensures forall s: string :: CountStatus(a, s) == CountStatus(b, s)
  {
    if a != [] {
      var n := |a| - 1;
      SummariesAlike(a[..n], b[..n]);
      assert ApprovalAlike(a[n], b[n]);
    }
  }

  // ---------------------------------------------------------------- what an accepted decision record says

  ghost predicate SomeAction(actions: seq<Action>, role: string, key: string) {
    exists a :: a in actions && a.ownerRole == role && key in a.evidenceKeys
  }

  /** Closure is approved exactly when the gate is ready, every action is complete and every mapped template is
      there; otherwise it is on hold. The key lists are sorted without repetition and hold the keys of the actions
      and of the phases; the owner roles are those of the actions, each once, with the keys of their actions. */
  lemma {:induction false} DecisionMeans(
      host: Host, record: DecisionRecord, gatePath: string, actionsPath: string, gapsPath: string,
      gate: PhaseGate, register: ActionRegister, gaps: GapMatrix)
    requires DecisionValid(host, record, gatePath, actionsPath, gapsPath, gate, register, gaps)
    ensures record.decision ==
            if && gate.state.ready && (forall a | a in register.actions :: a.status == "complete")
               && forall p, m | p in gaps.phases && m in p.mappings :: m.present
            then "approve-phase-closure" else "hold-phase-closure"
    ensures record.pendingActionCount ==
            |set i | 0 <= i < |register.actions| && register.actions[i].status != "complete"|
    ensures record.coverage == CommandCoverage(
              register.commands.scriptCount, gaps.commands.scriptCount,
              if gaps.commands.validatorCount > 0 then gaps.commands.validatorCount
              else register.commands.validatorCount,
              register.commands.scripts, gaps.commands.scripts)
    ensures record.keys.actionKeyCount == |record.keys.actionKeys| && record.keys.gapKeyCount == |record.keys.gapKeys|
    ensures Ascending(record.keys.actionKeys) && Ascending(record.keys.gapKeys)
    ensures forall key :: key in record.keys.actionKeys <==> exists a :: a in register.actions && key in a.evidenceKeys
    ensures forall key :: key in record.keys.gapKeys <==> exists p :: p in gaps.phases && key in p.evidenceKeys
    ensures Distinct(record.ownerRoles)
    ensures forall role :: role in record.ownerRoles <==> exists a :: a in register.actions && a.ownerRole == role
    ensures |record.requiredApprovals| == |record.ownerRoles|
    ensures forall i | 0 <= i < |record.ownerRoles| ::
              var required := record.requiredApprovals[i];
              && required.ownerRole == record.ownerRoles[i] && Ascending(required.evidenceKeys)
              && forall key :: key in required.evidenceKeys <==>
                               SomeAction(register.actions, required.ownerRole, key)
  {
    hide InputsLinked, IsTimestamp, SortedUnique, Unique, Pending, MissingIn, Signoffs.KeysOf, GapKeysOf, OwnedBy,
      Owners, PendingListed, AsSet, SomeAction;
    PendingCounted(register.actions);
    NothingMissing(gaps.phases);
    forall key
      ensures key in record.keys.actionKeys <==> exists a :: a in register.actions && key in a.evidenceKeys
      ensures key in record.keys.gapKeys <==> exists p :: p in gaps.phases && key in p.evidenceKeys
    {
      KeyOfAction(register.actions, key);
      KeyOfPhase(gaps.phases, key);
    }
    forall role
      ensures role in record.ownerRoles <==> exists a :: a in register.actions && a.ownerRole == role
    {
      RoleOfAction(register.actions, role);
    }
    forall i | 0 <= i < |record.ownerRoles|
      ensures forall key :: key in record.requiredApprovals[i].evidenceKeys <==>
                            SomeAction(register.actions, record.ownerRoles[i], key)
    {
      forall key
        ensures key in record.requiredApprovals[i].evidenceKeys <==>
                SomeAction(register.actions, record.ownerRoles[i], key)
      {
        KeyOfRole(register.actions, record.ownerRoles[i], key);
      }
    }
  }

  lemma {:induction false} PendingCounted(actions: seq<Action>)
    ensures |Pending(actions)| == |set i | 0 <= i < |actions| && actions[i].status != "complete"|
    ensures Pending(actions) == [] <==> forall a | a in actions :: a.status == "complete"
  {
    PendingPlaces(actions);
    assert Pending(actions) != [] ==> Pending(actions)[0] in Pending(actions);
  }

  function Places(actions: seq<Action>): set<int> {
    set i | 0 <= i < |actions| && actions[i].status != "complete"
  }

  lemma {:induction false} PendingAppend(actions: seq<Action>, last: Action)
    ensures |Pending(actions + [last])| == |Pending(actions)| + if last.status != "complete" then 1 else 0
  {
    if actions == [] {
      assert [] + [last] == [last];
      assert [last][1..] == [];
    } else {
      assert (actions + [last])[1..] == actions[1..] + [last];
      PendingAppend(actions[1..], last);
    }
  }

  lemma {:induction false} PlacesLast(actions: seq<Action>)
    requires actions != []
    ensures var n := |actions| - 1;
            |Places(actions)| == |Places(actions[..n])| + if actions[n].status != "complete" then 1 else 0
  {
    var n := |actions| - 1;
    OneMore(Places(actions), Places(actions[..n]), n, actions[n].status != "complete");
  }

  lemma {:induction false} PendingPlaces(actions: seq<Action>)
    ensures |Pending(actions)| == |Places(actions)|
  {
    hide Pending;
    if actions == [] {
      assert Places(actions) == {};
      PendingNone();
    } else {
      hide Places;
      var n := |actions| - 1;
      PendingPlaces(actions[..n]);
      PendingAppend(actions[..n], actions[n]);
      PlacesLast(actions);
      assert actions[..n] + [actions[n]] == actions;
    }
  }

  lemma {:induction false} PendingNone()
    ensures Pending([]) == []
  {
  }

  lemma {:induction false} NothingMissing(phases: seq<GapPhase>)
    ensures MissingIn(phases) == [] <==> forall p, m | p in phases && m in p.mappings :: m.present
  {
    hide MissingOf;
    if phases != [] {
      NothingMissing(phases[1..]);
      NoneMissingOf(phases[0], phases[0].mappings);
      assert phases == [phases[0]] + phases[1..];
    }
  }

  lemma {:induction false} NoneMissingOf(phase: GapPhase, mappings: seq<TemplateMapping>)
    ensures MissingOf(phase, mappings) == [] <==> forall m | m in mappings :: m.present
  {
    if mappings != [] {
      NoneMissingOf(phase, mappings[1..]);
      assert mappings == [mappings[0]] + mappings[1..];
    }
  }

  lemma {:induction false} InSorted(names: seq<string>, name: string)
    ensures name in SortedUnique(names) <==> name in names
    ensures name in Unique(names) <==> name in names
  {
    assert name in SortedUnique(names) <==> name in AsSet(SortedUnique(names));
    assert name in Unique(names) <==> name in AsSet(Unique(names));
  }

  lemma {:induction false} KeyOfPhase(phases: seq<GapPhase>, key: string)
    ensures key in SortedUnique(GapKeysOf(phases)) <==> exists p :: p in phases && key in p.evidenceKeys
  {
    hide SortedUnique;
    InSorted(GapKeysOf(phases), key);
    KeyInPhases(phases, key);
  }

  lemma {:induction false} KeyInPhases(phases: seq<GapPhase>, key: string)
    ensures key in GapKeysOf(phases) <==> exists p :: p in phases && key in p.evidenceKeys
  {
    if phases != [] {
      KeyInPhases(phases[1..], key);
      assert phases == [phases[0]] + phases[1..];
    }
  }

  lemma {:induction false} RoleOfAction(actions: seq<Action>, role: string)
    ensures role in Unique(Owners(actions)) <==> exists a :: a in actions && a.ownerRole == role
  {
    hide Unique;
    InSorted(Owners(actions), role);
    if a :| a in actions && a.ownerRole == role {
      var i :| 0 <= i < |actions| && actions[i] == a;
      assert Owners(actions)[i] == role;
    }
  }

  lemma {:induction false} KeyOfRole(actions: seq<Action>, role: string, key: string)
    ensures key in SortedUnique(Signoffs.KeysOf(OwnedBy(actions, role))) <==> SomeAction(actions, role, key)
  {
    hide SortedUnique, Signoffs.KeysOf;
    KeyOfAction(OwnedBy(actions, role), key);
  }

  // ---------------------------------------------------------------- command scripts

  /** The command runs this pnpm script: pnpm, white space, the script's name up to the next white space. */
  ghost predicate Runs(command: string, script: string) {
    exists gap, rest :: RunsAs(command, gap, script, rest)
  }

  predicate RunsAs(command: string, gap: string, script: string, rest: string) {
    && command == "pnpm" + gap + script + rest
    && gap != "" && AllSpace(gap)
    && script != "" && (forall c | c in script :: !IsSpace(c))
    && (rest == "" || IsSpace(rest[0]))
  }

  lemma {:induction false} ScriptExactly(command: string, script: string)
    ensures ScriptOf(command) == Some(script) <==> Runs(command, script)
  {
    hide ScriptOf, RunsAs;
    if ScriptOf(command) == Some(script) {
      var gap, rest := ScriptFound(command, script);
    }
    if Runs(command, script) {
      var gap, rest :| RunsAs(command, gap, script, rest);
      ScriptRead(command, gap, script, rest);
    }
  }

  lemma {:induction false} ScriptFound(command: string, script: string) returns (gap: string, rest: string)
    requires ScriptOf(command) == Some(script)
    ensures RunsAs(command, gap, script, rest)
  {
    hide IsSpace, TrimStart, FirstWord;
    var after := command[4..];
    TrimStartSplits(after);
    gap :| AllSpace(gap) && after == gap + TrimStart(after);
    FirstWordSplits(TrimStart(after));
    FirstWordFilled(TrimStart(after));
    rest := TrimStart(after)[|script|..];
    assert command == "pnpm" + after;
    assert gap == "" ==> after == TrimStart(after);
  }

  lemma {:induction false} FirstWordFilled(s: string)
    ensures s != "" && !IsSpace(s[0]) ==> FirstWord(s) != ""
  {
  }

  lemma {:induction false} ScriptRead(command: string, gap: string, script: string, rest: string)
    requires RunsAs(command, gap, script, rest)
    ensures ScriptOf(command) == Some(script)
  {
    hide IsSpace, TrimStart, FirstWord;
    assert command[..4] == "pnpm";
    assert command[4..] == gap + (script + rest);
    TrimStartExact(gap, script + rest);
    FirstWordExact(script, rest);
  }

  lemma {:induction false} FirstWordSplits(s: string)
    ensures var w := FirstWord(s);
            && |w| <= |s| && s[..|w|] == w && (forall c | c in w :: !IsSpace(c))
            && (s[|w|..] == "" || IsSpace(s[|w|]))
  {
    if s != "" && !IsSpace(s[0]) {
      FirstWordSplits(s[1..]);
    }
  }

  lemma {:induction false} FirstWordExact(script: string, rest: string)
    requires (forall c | c in script :: !IsSpace(c)) && (rest == "" || IsSpace(rest[0]))
    ensures FirstWord(script + rest) == script
  {
    if script == "" {
      assert script + rest == rest;
    } else {
      assert (script + rest)[1..] == script[1..] + rest;
      FirstWordExact(script[1..], rest);
    }
  }

  lemma {:induction false} TrimStartExact(gap: string, rest: string)
    requires AllSpace(gap) && rest != "" && !IsSpace(rest[0])
    ensures TrimStart(gap + rest) == rest
  {
    if gap == "" {
      assert gap + rest == rest;
    } else {
      assert (gap + rest)[1..] == gap[1..] + rest;
      TrimStartExact(gap[1..], rest);
    }
  }

  lemma {:induction false} ScriptOfCommands(commands: seq<string>, script: string)
    ensures script in CommandScriptsFor(commands) <==> exists c :: c in commands && Runs(c, script)
  {
    hide Runs, ScriptOf, SortedUnique;
    InSorted(ScriptsOf(commands), script);
    ScriptInCommands(commands, script);
  }

  lemma {:induction false} ScriptInCommands(commands: seq<string>, script: string)
    ensures script in ScriptsOf(commands) <==> exists c :: c in commands && Runs(c, script)
  {
    hide Runs, ScriptOf;
    if commands != [] {
      ScriptInCommands(commands[1..], script);
      ScriptExactly(commands[0], script);
      assert script == "" ==> !Runs(commands[0], script) by { NoEmptyScript(commands[0]); }
      assert commands == [commands[0]] + commands[1..];
    }
  }

  lemma {:induction false} NoEmptyScript(command: string)
    ensures !Runs(command, "")
  {
  }

  ghost predicate SomeRuns(commands: seq<string>, script: string) {
    exists c :: c in commands && Runs(c, script)
  }

  ghost predicate SomeCommand(actions: seq<Action>, role: string, script: string) {
    exists a :: a in actions && a.ownerRole == role && SomeRuns(a.commands, script)
  }

  ghost predicate SomeBlocker(actions: seq<Action>, role: string, blocker: string) {
    exists a :: a in actions && a.ownerRole == role && a.blockerType == blocker
  }

  lemma {:induction false} ScriptInActions(actions: seq<Action>, script: string)
    ensures script in AllScripts(actions) <==> exists a :: a in actions && SomeRuns(a.commands, script)
  {
    hide CommandScriptsFor, Runs, SomeRuns;
    if actions != [] {
      ScriptInActions(actions[1..], script);
      ScriptsRun(actions[0].commands, script);
      assert actions == [actions[0]] + actions[1..];
    }
  }

  lemma {:induction false} ScriptsRun(commands: seq<string>, script: string)
    ensures script in CommandScriptsFor(commands) <==> SomeRuns(commands, script)
  {
    hide CommandScriptsFor, Runs;
    ScriptOfCommands(commands, script);
  }

  lemma {:induction false} ScriptOfRole(actions: seq<Action>, role: string, script: string)
    ensures script in SortedUnique(AllScripts(OwnedBy(actions, role))) <==> SomeCommand(actions, role, script)
  {
    hide SortedUnique, AllScripts, SomeRuns;
    InSorted(AllScripts(OwnedBy(actions, role)), script);
    ScriptInActions(OwnedBy(actions, role), script);
  }

  lemma {:induction false} BlockerOfRole(actions: seq<Action>, role: string, blocker: string)
    ensures blocker in Unique(BlockersOf(OwnedBy(actions, role))) <==> SomeBlocker(actions, role, blocker)
  {
    hide Unique, BlockersOf;
    InSorted(BlockersOf(OwnedBy(actions, role)), blocker);
    BlockerInActions(OwnedBy(actions, role), blocker);
  }

  lemma {:induction false} BlockerInActions(actions: seq<Action>, blocker: string)
    ensures blocker in BlockersOf(actions) <==> exists a :: a in actions && a.blockerType == blocker
  {
    if actions != [] {
      BlockerInActions(actions[1..], blocker);
      assert actions == [actions[0]] + actions[1..];
    }
  }

  /** In an accepted matrix the approval of an owner role names exactly the pnpm scripts that the commands of the
      role's actions run, sorted and without repetition, and the role's blocker types and evidence keys; every
      listed action names the scripts that its own commands run. */
  lemma {:induction false} ApprovalMeans(
      host: Host, matrix: Matrix, decisionPath: string, actionsPath: string,
      decision: DecisionRecord, register: ActionRegister, i: nat)
    requires MatrixValid(host, matrix, decisionPath, actionsPath, decision, register) && i < |matrix.approvals|
    ensures var a := matrix.approvals[i];
            && Ascending(a.commandScripts) && a.commandScriptCount == |a.commandScripts|
            && (forall script :: script in a.commandScripts <==> SomeCommand(register.actions, a.ownerRole, script))
            && Distinct(a.blockerTypes)
            && (forall t :: t in a.blockerTypes <==> SomeBlocker(register.actions, a.ownerRole, t))
            && Ascending(a.evidenceKeys)
            && forall key :: key in a.evidenceKeys <==> SomeAction(register.actions, a.ownerRole, key)
    ensures var a, owned := matrix.approvals[i], OwnedBy(register.actions, matrix.approvals[i].ownerRole);
            && a.status == (if (forall x | x in owned :: x.status == "complete")
                               && matrix.decision == "approve-phase-closure"
                            then "ready-for-signoff" else "blocked-pending-evidence")
            && a.actionCount == |owned|
            && |a.actions| == |owned|
            && forall k | 0 <= k < |owned| ::
                 && a.actions[k].id == owned[k].id && a.actions[k].title == owned[k].title
                 && a.actions[k].status == owned[k].status && a.actions[k].evidenceKeys == owned[k].evidenceKeys
                 && Ascending(a.actions[k].commandScripts)
                 && forall script :: script in a.actions[k].commandScripts <==> SomeRuns(owned[k].commands, script)
  {
    hide IsTimestamp, SortedUnique, Unique, AllScripts, Signoffs.KeysOf, BlockersOf, SomeCommand, SomeBlocker,
      SomeAction, SomeRuns, MatrixValid, OwnedBy, Ascending, Distinct, Pending, Decimal, AsSet;
    var a := matrix.approvals[i];
    var role := ApprovalAt(host, matrix, decisionPath, actionsPath, decision, register, i);
    PendingCounted(OwnedBy(register.actions, role));
    forall name
      ensures name in a.commandScripts <==> SomeCommand(register.actions, role, name)
      ensures name in a.blockerTypes <==> SomeBlocker(register.actions, role, name)
      ensures name in a.evidenceKeys <==> SomeAction(register.actions, role, name)
    {
      ScriptOfRole(register.actions, role, name);
      BlockerOfRole(register.actions, role, name);
      KeyOfRole(register.actions, role, name);
    }
    var owned := OwnedBy(register.actions, role);
    forall k, script | 0 <= k < |owned|
      ensures script in a.actions[k].commandScripts <==> SomeRuns(owned[k].commands, script)
    {
      ScriptsRun(owned[k].commands, script);
    }
  }

  lemma {:induction false} ApprovalAt(
      host: Host, matrix: Matrix, decisionPath: string, actionsPath: string,
      decision: DecisionRecord, register: ActionRegister, i: nat) returns (role: string)
    requires MatrixValid(host, matrix, decisionPath, actionsPath, decision, register) && i < |matrix.approvals|
    ensures ApprovalValid(matrix.approvals[i], decision.decision, register, role, i)
    ensures matrix.decision == decision.decision
  {
    hide IsTimestamp, ApprovalValid, Unique, Owners, Summarize;
    role := Unique(Owners(register.actions))[i];
  }

  function WithStatus(approvals: seq<Approval>, status: string): set<int> {
    set i | 0 <= i < |approvals| && approvals[i].status == status
  }

  lemma {:induction false} StatusCounted(approvals: seq<Approval>, status: string)
    ensures CountStatus(approvals, status) == |WithStatus(approvals, status)|
  {
    if approvals == [] {
      assert WithStatus(approvals, status) == {};
    } else {
      var n := |approvals| - 1;
      StatusCounted(approvals[..n], status);
      OneMore(WithStatus(approvals, status), WithStatus(approvals[..n], status), n, approvals[n].status == status);
    }
  }

  /** The summary of an accepted matrix counts its approvals and names the register's keys and commands. */
  lemma {:induction false} SummaryMeans(
      host: Host, matrix: Matrix, decisionPath: string, actionsPath: string,
      decision: DecisionRecord, register: ActionRegister)
    requires MatrixValid(host, matrix, decisionPath, actionsPath, decision, register)
    ensures var s := matrix.summary;
            && s.approvalCount == |matrix.approvals|
            && s.readyCount == |WithStatus(matrix.approvals, "ready-for-signoff")|
            && s.blockedCount == |WithStatus(matrix.approvals, "blocked-pending-evidence")|
            && s.evidenceKeyCount == |s.evidenceKeys| && Ascending(s.evidenceKeys)
            && s.commands.scriptCount == register.commands.scriptCount
            && s.commands.validatorCount ==
               (if decision.coverage.validatorCount > 0 then decision.coverage.validatorCount
                else register.commands.validatorCount)
            && s.commands.scripts == register.commands.scripts
    ensures forall key :: key in matrix.summary.evidenceKeys <==>
                          exists a :: a in register.actions && key in a.evidenceKeys
  {
    hide IsTimestamp, ApprovalValid, Unique, Owners, CountStatus, SumPending, SortedUnique, Signoffs.KeysOf;
    StatusCounted(matrix.approvals, "ready-for-signoff");
    StatusCounted(matrix.approvals, "blocked-pending-evidence");
    forall key
      ensures key in matrix.summary.evidenceKeys <==> exists a :: a in register.actions && key in a.evidenceKeys
    {
      KeyOfAction(register.actions, key);
    }
  }
}
