/** PreseedClaudeConfig of `internal/rc/trust.go` on disk: many processes, one lock file, a
    temporary file and a rename, and a crash possible between any two steps. */
module TrustFiles {
  import opened Basics
  import opened TrustMerge

  /** The JSON printer and parser. */
  datatype Codec = Codec(encode: Json -> string, decode: string -> Option<Json>)

  /** The tree a process starts from: an absent or empty file and a literal null count as an
      empty object; anything else that is not an object is refused. */
  function Parsed(codec: Codec, file: Option<string>): Option<Fields> {
    if file.None? || file.value == "" then Some(map[])
    else
      match codec.decode(file.value)
      case None => None
      case Some(Null) => Some(map[])
      case Some(Obj(fields)) => Some(fields)
      case Some(_) => None
  }

  /** A file that holds something, but not a JSON object. */
  predicate NotAnObject(codec: Codec, file: Option<string>) {
    && file.Some? && file.value != ""
    && match codec.decode(file.value)
       case None => true
       case Some(v) => !v.Obj? && !v.Null?
  }

  /** A file without fields: absent, empty, or a literal null. */
  predicate HoldsNothing(codec: Codec, file: Option<string>) {
    file.None? || file.value == "" || codec.decode(file.value) == Some(Null)
  }

  /** Exactly which files are refused, and what the others start from. */
  lemma ParsedExactly(codec: Codec, file: Option<string>)
    ensures Parsed(codec, file).None? <==> NotAnObject(codec, file)
    ensures HoldsNothing(codec, file) ==> Parsed(codec, file) == Some(map[])
    ensures forall fields :: file.Some? && file.value != "" && codec.decode(file.value) == Some(Obj(fields)) ==>
              Parsed(codec, file) == Some(fields)
  {
  }

  /** This tree, printed, is not empty and reads back as it was. */
  ghost predicate Rereads(codec: Codec, v: Json) {
    codec.encode(v) != "" && codec.decode(codec.encode(v)) == Some(v)
  }

  /** What the program relies on: the trees it prints read back as they were. These are the one
      it decoded from the initial file, with work directories merged in; a file that does not
      parse asks nothing of the codec. */
  ghost predicate Faithful(codec: Codec, file0: Option<string>) {
    Parsed(codec, file0).Some? ==>
        forall ws: set<string> :: Rereads(codec, Obj(MergeSet(Parsed(codec, file0).value, ws)))
  }

  function Printed(codec: Codec, config: Fields, workdir: string): string {
    codec.encode(Obj(MergeSet(config, {workdir})))
  }

  // ---------------------------------------------------------------- one process

  /** The system calls of atomicWrite. */
  datatype WriteCall = CreateTemp | WriteTemp(written: nat) | SyncTemp | CloseTemp | ChmodTemp | RenameTemp

  /** What can fail in a preseed, in order: system calls, and printing the merged tree. */
  datatype Call = MakeDir | OpenLock | TakeLock | ReadFile | Encode | AtomicWriteCall(w: WriteCall)

  /** Calls that come before the file's contents are parsed. */
  predicate BeforeParsing(call: Call) {
    call.MakeDir? || call.OpenLock? || call.TakeLock? || call.ReadFile?
  }

  datatype PreseedError = NotJson | AtCall(call: Call)

  /** The configuration's directory: the file itself and the temporary files beside it. */
  class ConfigDir {
    const codec: Codec
    var file: Option<string>
    var temps: map<nat, string>

    constructor (codec: Codec, file: Option<string>)
      ensures this.codec == codec && this.file == file && temps == map[]
    {
      this.codec, this.file, temps := codec, file, map[];
    }

    /** `fault` is the call that fails, if one does. Whichever it is, the file is untouched and
        no temporary file is left; otherwise the file holds exactly `data`. The name `tmp` is
        picked so as not to exist yet. */
    method AtomicWrite(data: string, tmp: nat, fault: Option<WriteCall>) returns (r: Result<(), PreseedError>)
      requires tmp !in temps
      modifies this
      ensures temps == old(temps)
      ensures if fault.None? then r == Ok(()) && file == Some(data)
                else r == Err(AtCall(AtomicWriteCall(fault.value))) && file == old(file)
    {
      ghost var others := temps;
      if fault == Some(CreateTemp) { return Err(AtCall(AtomicWriteCall(CreateTemp))); }
      temps := temps[tmp := ""];
      if fault.Some? && fault.value.WriteTemp? {
        temps := temps[tmp := data[..if fault.value.written < |data| then fault.value.written else |data|]];
        temps := temps - {tmp};
        assert temps == others;
        return Err(AtCall(AtomicWriteCall(fault.value)));
      }
      temps := temps[tmp := data];
      if fault.Some? {
        temps := temps - {tmp};
        assert temps == others;
        return Err(AtCall(AtomicWriteCall(fault.value)));
      }
      file := Some(temps[tmp]);
      temps := temps - {tmp};
      assert temps == others;
      return Ok(());
    }

    /** One whole preseed; `fault` is the call that fails, if one does. A file that does not parse
        is left untouched. */
    method Preseed(workdir: string, tmp: nat, fault: Option<Call>) returns (r: Result<(), PreseedError>)
      requires tmp !in temps
      modifies this
      ensures temps == old(temps)
      ensures r == if fault.Some? && BeforeParsing(fault.value) then Err(AtCall(fault.value))
                   else if NotAnObject(codec, old(file)) then Err(NotJson)
                   else if fault.Some? then Err(AtCall(fault.value)) else Ok(())
      ensures r.Err? ==> file == old(file)
      ensures r.Ok? && HoldsNothing(codec, old(file)) ==> file == Some(codec.encode(Obj(MergeSet(map[], {workdir}))))
      ensures r.Ok? && !HoldsNothing(codec, old(file)) ==>
                var v := codec.decode(old(file).value).value;
                v.Obj? && file == Some(codec.encode(Obj(MergeSet(v.fields, {workdir}))))
    {
      if fault.Some? && BeforeParsing(fault.value) { return Err(AtCall(fault.value)); }
      var config: Fields := map[];
      if file.Some? && |file.value| > 0 {
        match codec.decode(file.value) {
          case None => return Err(NotJson);
          case Some(Null) =>
          case Some(Obj(fields)) => config := fields;
          case Some(_) => return Err(NotJson);
        }
      }
      config := Merge(config, workdir);
      if fault == Some(Encode) { return Err(AtCall(Encode)); }
      var out := codec.encode(Obj(config));
      r := AtomicWrite(out, tmp, if fault.Some? then Some(fault.value.w) else None);
    }
  }

  // ---------------------------------------------------------------- many processes

  /** How far a process got. While it writes, `tmp` is what its temporary file holds so far.
      `Over(renamed)` covers success, a failed call and a crash. */
  datatype Phase =
    | Waiting
    | Holding
    | HasRead(config: Fields)
    | Writing(out: string, tmp: string)
    | Renamed
    | Over(renamed: bool)

  datatype Process = Process(workdir: string, phase: Phase)

  datatype System = System(file: Option<string>, holder: Option<nat>, ps: seq<Process>)

  datatype Event =
    | Start(workdir: string)
    | Lock(p: nat)
    | Read(p: nat)
    | Create(p: nat)
    | Write(p: nat, bytes: nat)
    | Rename(p: nat)
    | Exit(p: nat)

  function SetPhase(s: System, p: nat, phase: Phase): System
    requires p < |s.ps|
  {
    s.(ps := s.ps[p := s.ps[p].(phase := phase)])
  }

  function HasRenamed(phase: Phase): bool {
    phase.Renamed? || (phase.Over? && phase.renamed)
  }

  /** The end of a process releases the lock it holds: Exit is its regular return, an error at
      any call, and a crash, after which the kernel closes the descriptor. */
  function Quit(s: System, p: nat): System
    requires p < |s.ps|
  {
    SetPhase(s, p, Over(HasRenamed(s.ps[p].phase))).(holder := if s.holder == Some(p) then None else s.holder)
  }

  /** An event of a process that is not at that point changes nothing. */
  function Step(codec: Codec, s: System, e: Event): System {
    if e.Start? then s.(ps := s.ps + [Process(e.workdir, Waiting)])
    else if e.p >= |s.ps| then s
    else
      var phase := s.ps[e.p].phase;
      match e
      case Lock(p) => if phase.Waiting? && s.holder.None? then SetPhase(s, p, Holding).(holder := Some(p)) else s
      case Read(p) =>
        if !phase.Holding? then s
        else if Parsed(codec, s.file).None? then Quit(s, p)
        else SetPhase(s, p, HasRead(Parsed(codec, s.file).value))
      case Create(p) =>
        if phase.HasRead? then SetPhase(s, p, Writing(Printed(codec, phase.config, s.ps[p].workdir), "")) else s
      case Write(p, bytes) =>
        if phase.Writing? && |phase.tmp| + bytes <= |phase.out|
        then SetPhase(s, p, Writing(phase.out, phase.out[..|phase.tmp| + bytes])) else s
      case Rename(p) =>
        if phase.Writing? && |phase.tmp| == |phase.out| then SetPhase(s, p, Renamed).(file := Some(phase.tmp)) else s
      case Exit(p) => Quit(s, p)
  }

  function Run(codec: Codec, file0: Option<string>, es: seq<Event>): System {
    if es == [] then System(file0, None, [])
    else Step(codec, Run(codec, file0, es[..|es| - 1]), es[|es| - 1])
  }

  /** The work directories of the processes that got as far as the rename. */
  function Inserted(ps: seq<Process>): set<string> {
    if ps == [] then {} else Inserted(ps[..|ps| - 1]) + InsertedBy(ps[|ps| - 1])
  }

  function InsertedBy(p: Process): set<string> {
    if HasRenamed(p.phase) then {p.workdir} else {}
  }

  lemma {:induction false} InsertedExactly(ps: seq<Process>, w: string)
    ensures w in Inserted(ps) <==> exists i :: 0 <= i < |ps| && HasRenamed(ps[i].phase) && ps[i].workdir == w
  {
    if ps != [] { InsertedExactly(ps[..|ps| - 1], w); }
  }

  lemma {:induction false} InsertedAfter(ps: seq<Process>, p: nat, phase: Phase)
    requires p < |ps|
    ensures HasRenamed(phase) ==> Inserted(ps[p := ps[p].(phase := phase)]) == Inserted(ps) + {ps[p].workdir}
    ensures HasRenamed(phase) == HasRenamed(ps[p].phase) ==> Inserted(ps[p := ps[p].(phase := phase)]) == Inserted(ps)
  {
    var qs, front := ps[p := ps[p].(phase := phase)], ps[..|ps| - 1];
    assert |qs| == |ps|;
    if p < |front| {
      assert qs[..|qs| - 1] == front[p := front[p].(phase := phase)];
      InsertedAfter(front, p, phase);
    } else {
      assert qs[..|qs| - 1] == front;
    }
  }

  /** The initial file with a set of work directories preseeded. */
  function FileWith(codec: Codec, file0: Option<string>, ws: set<string>): Option<string> {
    if ws == {} || Parsed(codec, file0).None? then file0
    else Some(codec.encode(Obj(MergeSet(Parsed(codec, file0).value, ws))))
  }

  predicate InCritical(phase: Phase) {
    phase.Holding? || phase.HasRead? || phase.Writing? || phase.Renamed?
  }

  ghost predicate ProcessOk(codec: Codec, s: System, p: nat)
    requires p < |s.ps|
  {
    var phase := s.ps[p].phase;
    && (InCritical(phase) <==> s.holder == Some(p))
    && (phase.HasRead? ==> Parsed(codec, s.file) == Some(phase.config))
    && (phase.Writing? ==>
          && Parsed(codec, s.file).Some? && phase.out == Printed(codec, Parsed(codec, s.file).value, s.ps[p].workdir)
          && |phase.tmp| <= |phase.out| && phase.tmp == phase.out[..|phase.tmp|])
  }

  ghost predicate Inv(codec: Codec, file0: Option<string>, s: System) {
    && s.file == FileWith(codec, file0, Inserted(s.ps))
    && (Parsed(codec, file0).None? ==> Inserted(s.ps) == {})
    && (forall p :: 0 <= p < |s.ps| ==> ProcessOk(codec, s, p))
    && (s.holder.Some? ==> s.holder.value < |s.ps|)
  }

  lemma FileWithParses(codec: Codec, file0: Option<string>, ws: set<string>)
    requires Faithful(codec, file0) && Parsed(codec, file0).Some?
    ensures Parsed(codec, FileWith(codec, file0, ws)) == Some(MergeSet(Parsed(codec, file0).value, ws))
  {
    assert Rereads(codec, Obj(MergeSet(Parsed(codec, file0).value, ws)));
  }

  /** Printing what a process read, with its own work directory merged in, adds that directory
      to the ones already in the file. */
  lemma PrintedAdds(codec: Codec, file0: Option<string>, ws: set<string>, w: string)
    requires Faithful(codec, file0) && Parsed(codec, file0).Some?
    ensures Parsed(codec, FileWith(codec, file0, ws)).Some?
    ensures Some(Printed(codec, Parsed(codec, FileWith(codec, file0, ws)).value, w)) == FileWith(codec, file0, ws + {w})
  {
    FileWithParses(codec, file0, ws);
    MergeOfMerge(Parsed(codec, file0).value, ws, {w});
  }

  /** Only a process inside its critical section changes the file or frees the lock, so what
      holds of another process goes on holding. */
  lemma OthersStayOk(codec: Codec, s: System, t: System, p: nat, q: nat)
    requires p < |s.ps| == |t.ps| && q < |s.ps| && q != p && t.ps[q] == s.ps[q] && ProcessOk(codec, s, q)
    requires t.file == s.file || s.holder == Some(p)
    requires t.holder == s.holder || (s.holder.None? && t.holder == Some(p)) || (s.holder == Some(p) && t.holder.None?)
    ensures ProcessOk(codec, t, q)
  {
  }

  /** What one step of process `p` does to the file, the lock and the process itself. */
  lemma MovesOnly(codec: Codec, s: System, e: Event, t: System)
    requires !e.Start? && e.p < |s.ps| && t == Step(codec, s, e) && t != s && ProcessOk(codec, s, e.p)
    ensures |t.ps| == |s.ps| && t.ps == s.ps[e.p := s.ps[e.p].(phase := t.ps[e.p].phase)]
    ensures if e.Rename? then HasRenamed(t.ps[e.p].phase) && s.holder == Some(e.p) &&
              t.file == Some(s.ps[e.p].phase.out)
            else t.file == s.file && HasRenamed(t.ps[e.p].phase) == HasRenamed(s.ps[e.p].phase)
    ensures e.Rename? ==> s.ps[e.p].phase.Writing?
    ensures t.holder == s.holder || (s.holder.None? && t.holder == Some(e.p)) ||
              (s.holder == Some(e.p) && t.holder.None?)
  {
    var phase := s.ps[e.p].phase;
    if phase.Writing? { assert phase.out[..|phase.out|] == phase.out; }
  }

  lemma MoverIsOk(codec: Codec, s: System, e: Event, t: System)
    requires !e.Start? && e.p < |s.ps| && t == Step(codec, s, e) && t != s && ProcessOk(codec, s, e.p)
    ensures e.p < |t.ps| && ProcessOk(codec, t, e.p)
  {
  }

  lemma StepKeepsInv(codec: Codec, file0: Option<string>, s: System, e: Event)
    requires Faithful(codec, file0) && Inv(codec, file0, s)
    ensures Inv(codec, file0, Step(codec, s, e))
  {
    var t := Step(codec, s, e);
    if e.Start? {
      StartKeepsInv(codec, file0, s, e, t);
    } else if t != s {
      MovesOnly(codec, s, e, t);
      MoverIsOk(codec, s, e, t);
      InsertedAfter(s.ps, e.p, t.ps[e.p].phase);
      if e.Rename? {
        ReadMeansParsed(codec, file0, s, e.p);
        PrintedAdds(codec, file0, Inserted(s.ps), s.ps[e.p].workdir);
      }
      forall q | 0 <= q < |t.ps| ensures ProcessOk(codec, t, q) {
        if q != e.p { OthersStayOk(codec, s, t, e.p, q); }
      }
    }
  }

  lemma ReadMeansParsed(codec: Codec, file0: Option<string>, s: System, p: nat)
    requires Inv(codec, file0, s) && p < |s.ps| && s.ps[p].phase.Writing?
    ensures Parsed(codec, file0).Some?
  {
    assert ProcessOk(codec, s, p);
  }

  lemma StartKeepsInv(codec: Codec, file0: Option<string>, s: System, e: Event, t: System)
    requires Inv(codec, file0, s) && e.Start? && t == Step(codec, s, e)
    ensures Inv(codec, file0, t)
  {
    assert t.ps[..|t.ps| - 1] == s.ps;
    assert Inserted(t.ps) == Inserted(s.ps);
    forall p | 0 <= p < |t.ps| ensures ProcessOk(codec, t, p) {
      if p < |s.ps| { assert ProcessOk(codec, s, p); }
    }
  }

  lemma {:induction false} RunKeepsInv(codec: Codec, file0: Option<string>, es: seq<Event>)
    requires Faithful(codec, file0)
    ensures Inv(codec, file0, Run(codec, file0, es))
  {
    if es != [] {
      RunKeepsInv(codec, file0, es[..|es| - 1]);
      StepKeepsInv(codec, file0, Run(codec, file0, es[..|es| - 1]), es[|es| - 1]);
    }
  }

  /** At every moment of every run, whoever crashes where, the file is the initial one merged
      with exactly the work directories of the processes that renamed: never torn, none of them
      lost, and their order plays no part. */
  lemma FileIsMergeOfRenamed(codec: Codec, file0: Option<string>, es: seq<Event>)
    requires Faithful(codec, file0)
    ensures var s := Run(codec, file0, es);
            s.file == FileWith(codec, file0, Inserted(s.ps))
  {
    RunKeepsInv(codec, file0, es);
  }

  /** A file that is not a JSON object is never touched, whatever the processes do. */
  lemma MalformedIsUntouched(codec: Codec, file0: Option<string>, es: seq<Event>)
    requires NotAnObject(codec, file0)
    ensures Run(codec, file0, es).file == file0
  {
    ParsedExactly(codec, file0);
    RunKeepsInv(codec, file0, es);
  }

  /** The lock is held by exactly the processes inside their critical section. */
  ghost predicate LockInv(s: System) {
    && (forall p :: 0 <= p < |s.ps| ==> (InCritical(s.ps[p].phase) <==> s.holder == Some(p)))
    && (s.holder.Some? ==> s.holder.value < |s.ps|)
  }

  lemma StepKeepsLock(codec: Codec, s: System, e: Event)
    requires LockInv(s)
    ensures LockInv(Step(codec, s, e))
  {
    var t := Step(codec, s, e);
    if !e.Start? && e.p < |s.ps| {
      assert forall p :: 0 <= p < |s.ps| && p != e.p ==> t.ps[p] == s.ps[p];
    }
  }

  lemma {:induction false} RunKeepsLock(codec: Codec, file0: Option<string>, es: seq<Event>)
    ensures LockInv(Run(codec, file0, es))
  {
    if es != [] {
      RunKeepsLock(codec, file0, es[..|es| - 1]);
      StepKeepsLock(codec, Run(codec, file0, es[..|es| - 1]), es[|es| - 1]);
    }
  }

  /** At most one process is between taking and releasing the lock, whatever the codec does. */
  lemma MutualExclusion(codec: Codec, file0: Option<string>, es: seq<Event>, p: nat, q: nat)
    requires p < |Run(codec, file0, es).ps| && q < |Run(codec, file0, es).ps|
    requires InCritical(Run(codec, file0, es).ps[p].phase) && InCritical(Run(codec, file0, es).ps[q].phase)
    ensures p == q
  {
    RunKeepsLock(codec, file0, es);
  }

  lemma StepKeepsRenamed(codec: Codec, s: System, e: Event, p: nat)
    requires p < |s.ps| && HasRenamed(s.ps[p].phase)
    ensures var t := Step(codec, s, e);
            p < |t.ps| && HasRenamed(t.ps[p].phase) && t.ps[p].workdir == s.ps[p].workdir
  {
  }

  lemma {:induction false} RenamedStays(codec: Codec, file0: Option<string>, es: seq<Event>, fs: seq<Event>, p: nat)
    requires p < |Run(codec, file0, es).ps| && HasRenamed(Run(codec, file0, es).ps[p].phase)
    ensures var t := Run(codec, file0, es + fs);
            p < |t.ps| && HasRenamed(t.ps[p].phase) && t.ps[p].workdir == Run(codec, file0, es).ps[p].workdir
  {
    if fs == [] {
      assert es + fs == es;
    } else {
      var all, front := es + fs, es + fs[..|fs| - 1];
      assert all[..|all| - 1] == front && all[|all| - 1] == fs[|fs| - 1];
      RenamedStays(codec, file0, es, fs[..|fs| - 1], p);
      StepKeepsRenamed(codec, Run(codec, file0, front), fs[|fs| - 1], p);
    }
  }

  /** Once a process has renamed, its work directory is trusted in the file forever after,
      whatever the other processes do. */
  lemma CompletedInsertIsNeverLost(codec: Codec, file0: Option<string>, es: seq<Event>, fs: seq<Event>, p: nat)
    requires Faithful(codec, file0)
    requires p < |Run(codec, file0, es).ps| && HasRenamed(Run(codec, file0, es).ps[p].phase)
    ensures var t := Run(codec, file0, es + fs);
            && Parsed(codec, t.file).Some?
            && Lookup(Obj(Parsed(codec, t.file).value), [PROJECTS, Run(codec, file0, es).ps[p].workdir, TRUST]) ==
                 Some(Bool(true))
  {
    RenamedStays(codec, file0, es, fs, p);
    RunKeepsInv(codec, file0, es + fs);
    var t := Run(codec, file0, es + fs);
    InsertedExactly(t.ps, t.ps[p].workdir);
    FileWithParses(codec, file0, Inserted(t.ps));
    MergedIsTrusted(Parsed(codec, file0).value, Inserted(t.ps), t.ps[p].workdir);
  }

  // ---------------------------------------------------------------- progress

  /** What a process does when nothing fails and it is not interrupted. */
  function WholePreseed(codec: Codec, s: System, p: nat): seq<Event>
    requires p < |s.ps| && Parsed(codec, s.file).Some?
  {
    var out := Printed(codec, Parsed(codec, s.file).value, s.ps[p].workdir);
    [Lock(p), Read(p), Create(p), Write(p, |out|), Rename(p), Exit(p)]
  }

  /** The system with process `p` at this point. */
  function At(file: Option<string>, holder: Option<nat>, ps: seq<Process>, p: nat, phase: Phase): System
    requires p < |ps|
  {
    System(file, holder, ps[p := ps[p].(phase := phase)])
  }

  lemma AtSteps(codec: Codec, file: Option<string>, ps: seq<Process>, p: nat)
    requires p < |ps| && Parsed(codec, file).Some?
    ensures Step(codec, At(file, None, ps, p, Waiting), Lock(p)) == At(file, Some(p), ps, p, Holding)
    ensures Step(codec, At(file, Some(p), ps, p, Holding), Read(p))
         == At(file, Some(p), ps, p, HasRead(Parsed(codec, file).value))
  {
  }

  lemma AtCreates(codec: Codec, file: Option<string>, ps: seq<Process>, p: nat, config: Fields)
    requires p < |ps|
    ensures Step(codec, At(file, Some(p), ps, p, HasRead(config)), Create(p))
         == At(file, Some(p), ps, p, Writing(Printed(codec, config, ps[p].workdir), ""))
  {
  }

  lemma AtWrites(codec: Codec, file: Option<string>, ps: seq<Process>, p: nat, out: string)
    requires p < |ps|
    ensures Step(codec, At(file, Some(p), ps, p, Writing(out, "")), Write(p, |out|))
         == At(file, Some(p), ps, p, Writing(out, out))
  {
    assert out[..|out|] == out;
  }

  lemma AtEnds(codec: Codec, file: Option<string>, ps: seq<Process>, p: nat, out: string)
    requires p < |ps|
    ensures Step(codec, At(file, Some(p), ps, p, Writing(out, out)), Rename(p))
         == At(Some(out), Some(p), ps, p, Renamed)
    ensures Step(codec, At(Some(out), Some(p), ps, p, Renamed), Exit(p)) == At(Some(out), None, ps, p, Over(true))
  {
  }

  /** A process that finds the lock free can always finish: it then has inserted its directory,
      released the lock, and left every other process where it was. */
  lemma WaitingCanFinish(codec: Codec, s: System, p: nat)
    requires p < |s.ps| && s.ps[p].phase.Waiting? && s.holder.None? && !NotAnObject(codec, s.file)
    ensures Parsed(codec, s.file).Some?
    ensures var out := Printed(codec, Parsed(codec, s.file).value, s.ps[p].workdir);
            Steps(codec, s, WholePreseed(codec, s, p))
              == System(Some(out), None, s.ps[p := Process(s.ps[p].workdir, Over(true))])
  {
    ParsedExactly(codec, s.file);
    var config := Parsed(codec, s.file).value;
    var out := Printed(codec, config, s.ps[p].workdir);
    assert s == At(s.file, None, s.ps, p, Waiting);
    AtSteps(codec, s.file, s.ps, p);
    AtCreates(codec, s.file, s.ps, p, config);
    AtWrites(codec, s.file, s.ps, p, out);
    AtEnds(codec, s.file, s.ps, p, out);
    var holder := Some(p);
    StepsCons(codec, At(Some(out), holder, s.ps, p, Renamed), Exit(p), []);
    StepsCons(codec, At(s.file, holder, s.ps, p, Writing(out, out)), Rename(p), [Exit(p)]);
    StepsCons(codec, At(s.file, holder, s.ps, p, Writing(out, "")), Write(p, |out|), [Rename(p), Exit(p)]);
    StepsCons(codec, At(s.file, holder, s.ps, p, HasRead(config)), Create(p), [Write(p, |out|), Rename(p), Exit(p)]);
    StepsCons(codec, At(s.file, holder, s.ps, p, Holding), Read(p), [Create(p), Write(p, |out|), Rename(p), Exit(p)]);
    StepsCons(codec, s, Lock(p), [Read(p), Create(p), Write(p, |out|), Rename(p), Exit(p)]);
    assert WholePreseed(codec, s, p) == [Lock(p)] + [Read(p), Create(p), Write(p, |out|), Rename(p), Exit(p)];
  }

  lemma StepsCons(codec: Codec, s: System, e: Event, es: seq<Event>)
    ensures Steps(codec, s, [e] + es) == Steps(codec, Step(codec, s, e), es)
  {
    assert ([e] + es)[1..] == es;
  }

  /** The state after some more events. */
  function Steps(codec: Codec, s: System, es: seq<Event>): System
    decreases |es|
  {
    if es == [] then s else Steps(codec, Step(codec, s, es[0]), es[1..])
  }

  lemma {:induction false} RunContinues(codec: Codec, file0: Option<string>, es: seq<Event>, fs: seq<Event>)
    ensures Run(codec, file0, es + fs) == Steps(codec, Run(codec, file0, es), fs)
    decreases |fs|
  {
    if fs == [] {
      assert es + fs == es;
    } else {
      var more := es + [fs[0]];
      assert es + fs == more + fs[1..] && more[..|es|] == es;
      RunContinues(codec, file0, more, fs[1..]);
    }
  }

  /** So in every run, as long as the file was an object or nothing to begin with, a process that
      waits while the lock is free can still bring its directory into the file. */
  lemma InsertIsReachable(codec: Codec, file0: Option<string>, es: seq<Event>, p: nat)
    requires Faithful(codec, file0) && !NotAnObject(codec, file0)
    requires var s := Run(codec, file0, es); p < |s.ps| && s.ps[p].phase.Waiting? && s.holder.None?
    ensures exists fs ::
      var s, t := Run(codec, file0, es), Run(codec, file0, es + fs);
      && t.holder.None? && t.ps == s.ps[p := Process(s.ps[p].workdir, Over(true))]
      && Parsed(codec, t.file).Some?
      && Lookup(Obj(Parsed(codec, t.file).value), [PROJECTS, s.ps[p].workdir, TRUST]) == Some(Bool(true))
  {
    var s := Run(codec, file0, es);
    ParsedExactly(codec, file0);
    RunKeepsInv(codec, file0, es);
    FileWithParses(codec, file0, Inserted(s.ps));
    ParsedExactly(codec, s.file);
    var fs := WholePreseed(codec, s, p);
    WaitingCanFinish(codec, s, p);
    RunContinues(codec, file0, es, fs);
    CompletedInsertIsNeverLost(codec, file0, es + fs, [], p);
    assert es + fs + [] == es + fs;
  }
}
