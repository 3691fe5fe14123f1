// The content-addressed artifact store, with publication as separate steps that a
// crash may cut short.
module ArtifactFiles {
  import opened Wrappers
  import opened Hashing
  import opened Utf8

  type Bytes = seq<Byte>

  /** SHA-256 as hexadecimal text, kept abstract. */
  type Sha = Bytes -> string

  /** Where a publication stands. */
  datatype Pc = Check | Open | Write | Verify | Replace | Cleanup(ok: bool)

  datatype Job = Job(content: Bytes, pid: int, pc: Pc)

  /** Staging files are named by digest and process id. */
  datatype StagedName = StagedName(hex: string, pid: int)

  /** The files, the publications in flight, and the contents whose publication began or returned. */
  datatype World = World(
    target: map<string, Bytes>,
    staged: map<StagedName, Bytes>,
    jobs: map<int, Job>,
    begun: set<Bytes>,
    published: set<Bytes>)

  function NameOf(sha: Sha, job: Job): StagedName { StagedName(sha(job.content), job.pid) }

  datatype Step =
    | Begin(job: int, content: Bytes, pid: int)
    | Advance(job: int, written: nat)
    | Crash(job: int)

  /** No other publication of this digest by this process is in flight. */
  predicate SoleWriter(sha: Sha, w: World, content: Bytes, pid: int) {
    forall j :: j in w.jobs ==> NameOf(sha, w.jobs[j]) != StagedName(sha(content), pid)
  }

  function Without(m: map<StagedName, Bytes>, name: StagedName): map<StagedName, Bytes> { m - {name} }

  /** The next step of one publication; `written` bytes have reached the staging file. */
  function AdvanceJob(sha: Sha, w: World, j: int, written: nat): World
    requires j in w.jobs
  {
    var job := w.jobs[j];
    var hex, name := sha(job.content), NameOf(sha, job);
    match job.pc
    case Check =>
      if hex !in w.target then w.(jobs := w.jobs[j := job.(pc := Open)])
      else if sha(w.target[hex]) != hex then w.(jobs := w.jobs - {j})
      else w.(jobs := w.jobs - {j}, published := w.published + {job.content})
    case Open =>
      if name in w.staged then w.(jobs := w.jobs[j := job.(pc := Cleanup(false))])
      else w.(staged := w.staged[name := []], jobs := w.jobs[j := job.(pc := Write)])
    case Write =>
      if written < |job.content| then w.(staged := w.staged[name := job.content[..written]])
      else w.(staged := w.staged[name := job.content], jobs := w.jobs[j := job.(pc := Verify)])
    case Verify =>
      var ok := name in w.staged && sha(w.staged[name]) == hex;
      w.(jobs := w.jobs[j := job.(pc := if ok then Replace else Cleanup(false))])
    case Replace =>
      if name !in w.staged then w.(jobs := w.jobs[j := job.(pc := Cleanup(false))])
      else w.(target := w.target[hex := w.staged[name]], staged := Without(w.staged, name),
              jobs := w.jobs[j := job.(pc := Cleanup(true))])
    case Cleanup(ok) =>
      w.(staged := Without(w.staged, name), jobs := w.jobs - {j},
         published := if ok then w.published + {job.content} else w.published)
  }

  function Start(w: World, j: int, content: Bytes, pid: int): World {
    w.(jobs := w.jobs[j := Job(content, pid, Check)], begun := w.begun + {content})
  }

  function Next(sha: Sha, w: World, s: Step): World {
    match s
    case Begin(j, content, pid) =>
      if j in w.jobs || !SoleWriter(sha, w, content, pid) then w
      else Start(w, j, content, pid)
    case Advance(j, written) => if j in w.jobs then AdvanceJob(sha, w, j, written) else w
    case Crash(j) => w.(jobs := w.jobs - {j})
  }

  /** What a publication does that finds a file of its name: return if it is intact, otherwise raise. */
  lemma ExistingTarget(sha: Sha, w: World, j: int, written: nat)
    requires j in w.jobs && w.jobs[j].pc == Check && sha(w.jobs[j].content) in w.target
    ensures var content := w.jobs[j].content;
            var intact := sha(w.target[sha(content)]) == sha(content);
            Next(sha, w, Advance(j, written)) ==
              w.(jobs := w.jobs - {j}, published := if intact then w.published + {content} else w.published)
  {
  }

  /** A staging file that is missing or does not hash to its name is never renamed. */
  lemma WrongStaging(sha: Sha, w: World, j: int, written: nat)
    requires j in w.jobs && w.jobs[j].pc == Verify
    requires NameOf(sha, w.jobs[j]) in w.staged ==> sha(w.staged[NameOf(sha, w.jobs[j])]) != sha(w.jobs[j].content)
    ensures Next(sha, w, Advance(j, written)) == w.(jobs := w.jobs[j := w.jobs[j].(pc := Cleanup(false))])
  {
  }

  /** A publication begins unless its number is taken or its process writes that digest already. */
  lemma BeginsExactly(sha: Sha, w: World, j: int, content: Bytes, pid: int)
    ensures Next(sha, w, Begin(j, content, pid)) ==
              if j !in w.jobs && forall i :: i in w.jobs ==> sha(w.jobs[i].content) != sha(content) || w.jobs[i].pid != pid
              then w.(jobs := w.jobs[j := Job(content, pid, Check)], begun := w.begun + {content}) else w
  {
  }

  /** Every published file hashes to its own name. */
  predicate NamesMatch(sha: Sha, target: map<string, Bytes>) {
    forall hex :: hex in target ==> sha(target[hex]) == hex
  }

  /** What a publication that got this far has in its staging file. */
  predicate StagedRight(sha: Sha, w: World, job: Job) {
    job.content in w.begun &&
    match job.pc
    case Verify => NameOf(sha, job) in w.staged && w.staged[NameOf(sha, job)] == job.content
    case Replace => NameOf(sha, job) in w.staged && w.staged[NameOf(sha, job)] == job.content
    case Cleanup(true) => sha(job.content) in w.target
    case _ => true
  }

  predicate Inv(sha: Sha, w: World) {
    && NamesMatch(sha, w.target)
    && (forall hex :: hex in w.target ==> w.target[hex] in w.begun)
    && (forall i, j :: i in w.jobs && j in w.jobs && i != j ==> NameOf(sha, w.jobs[i]) != NameOf(sha, w.jobs[j]))
    && (forall j :: j in w.jobs ==> StagedRight(sha, w, w.jobs[j]))
    && (forall c :: c in w.published ==> c in w.begun && sha(c) in w.target)
  }

  lemma AdvanceKeeps(sha: Sha, w: World, j: int, written: nat)
    requires Inv(sha, w) && j in w.jobs
    ensures Inv(sha, AdvanceJob(sha, w, j, written))
  {
  }

  /** Whatever steps and crashes happen, no file gets a name it does not hash to. */
  lemma NextKeeps(sha: Sha, w: World, s: Step)
    requires Inv(sha, w)
    ensures Inv(sha, Next(sha, w, s))
    ensures w.begun <= Next(sha, w, s).begun && w.published <= Next(sha, w, s).published
  {
    match s
    case Begin(j, content, pid) =>
    case Advance(j, written) => if j in w.jobs { AdvanceKeeps(sha, w, j, written); }
    case Crash(j) =>
  }

  /** Two contents whose publication began have one digest. */
  ghost predicate ContentsClash(sha: Sha, contents: set<Bytes>) {
    exists x, y :: x in contents && y in contents && Clash(sha, x, y)
  }

  /** Files are never removed, and never change unless two contents being published clash. */
  lemma TargetStable(sha: Sha, w: World, s: Step)
    requires Inv(sha, w)
    ensures w.target.Keys <= Next(sha, w, s).target.Keys
    ensures (forall hex :: hex in w.target ==> Next(sha, w, s).target[hex] == w.target[hex]) ||
            ContentsClash(sha, Next(sha, w, s).begun)
  {
    NextKeeps(sha, w, s);
    var u := Next(sha, w, s);
    if hex :| hex in w.target && u.target[hex] != w.target[hex] {
      assert Clash(sha, w.target[hex], u.target[hex]);
    }
  }

  function NextAll(sha: Sha, w: World, steps: seq<Step>): World
    decreases |steps|
  {
    if steps == [] then w else NextAll(sha, Next(sha, w, steps[0]), steps[1..])
  }

  const EMPTY := World(map[], map[], map[], {}, {})

  /** `read` of a digest: None when it raises. */
  function Read(sha: Sha, target: map<string, Bytes>, hex: string): Option<Bytes> {
    if hex !in target || sha(target[hex]) != hex then None else Some(target[hex])
  }

  lemma {:induction false} StepsKeep(sha: Sha, w: World, steps: seq<Step>)
    requires Inv(sha, w)
    ensures Inv(sha, NextAll(sha, w, steps))
    decreases |steps|
  {
    if steps != [] {
      NextKeeps(sha, w, steps[0]);
      StepsKeep(sha, Next(sha, w, steps[0]), steps[1..]);
    }
  }

  /** The contents that a list of steps begins to publish. */
  function Contents(steps: seq<Step>): set<Bytes> {
    set i | 0 <= i < |steps| && steps[i].Begin? :: steps[i].content
  }

  lemma {:induction false} BegunIsContents(sha: Sha, w: World, steps: seq<Step>)
    ensures NextAll(sha, w, steps).begun <= w.begun + Contents(steps)
    decreases |steps|
  {
    if steps != [] {
      var u := Next(sha, w, steps[0]);
      BegunIsContents(sha, u, steps[1..]);
      forall c | c in Contents(steps[1..]) ensures c in Contents(steps) {
        var i :| 0 <= i < |steps[1..]| && steps[1..][i].Begin? && steps[1..][i].content == c;
        assert steps[i + 1].content == c;
      }
      if u.begun != w.begun { assert u.begun == w.begun + {steps[0].content} && steps[0].content in Contents(steps); }
    }
  }

  /**
   * After any steps and crashes, reading a published digest gives the published bytes,
   * or other bytes that were to be published too and have the same digest.
   */
  lemma PublishedReadsBack(sha: Sha, steps: seq<Step>, content: Bytes)
    requires content in NextAll(sha, EMPTY, steps).published
    ensures Read(sha, NextAll(sha, EMPTY, steps).target, sha(content)) == Some(content) ||
            exists c :: c in Contents(steps) && Clash(sha, content, c)
  {
    StepsKeep(sha, EMPTY, steps);
    BegunIsContents(sha, EMPTY, steps);
    var bytes := NextAll(sha, EMPTY, steps).target[sha(content)];
    if bytes != content { assert bytes in Contents(steps) && Clash(sha, content, bytes); }
  }

  // ---------- an undisturbed publication ----------

  /** One publication's steps from its begin on, when nothing stands in its way. */
  function Publication(j: int, content: Bytes, pid: int): seq<Step> {
    [Begin(j, content, pid), Advance(j, 0), Advance(j, 0), Advance(j, |content|), Advance(j, 0), Advance(j, 0), Advance(j, 0)]
  }

  lemma StepThrough(sha: Sha, w: World, step: Step, rest: seq<Step>)
    ensures NextAll(sha, w, [step] + rest) == NextAll(sha, Next(sha, w, step), rest)
  {
    assert ([step] + rest)[1..] == rest;
  }

  lemma ThreeSteps(sha: Sha, w: World, a: Step, b: Step, c: Step, rest: seq<Step>)
    ensures NextAll(sha, w, [a, b, c] + rest) == NextAll(sha, Next(sha, Next(sha, Next(sha, w, a), b), c), rest)
  {
    StepThrough(sha, w, a, [b, c] + rest);
    StepThrough(sha, Next(sha, w, a), b, [c] + rest);
    StepThrough(sha, Next(sha, Next(sha, w, a), b), c, rest);
    assert [a, b, c] + rest == [a] + ([b, c] + rest) && [b, c] + rest == [b] + ([c] + rest);
  }

  /** Begin, check and open. */
  lemma Opens(sha: Sha, w: World, j: int, content: Bytes, pid: int)
    requires j !in w.jobs && SoleWriter(sha, w, content, pid)
    requires sha(content) !in w.target && StagedName(sha(content), pid) !in w.staged
    ensures var step, u := Advance(j, 0), w.(begun := w.begun + {content});
            Next(sha, Next(sha, Next(sha, w, Begin(j, content, pid)), step), step) ==
              u.(jobs := w.jobs[j := Job(content, pid, Write)], staged := w.staged[StagedName(sha(content), pid) := []])
  {
    var u := w.(begun := w.begun + {content});
    assert Next(sha, w, Begin(j, content, pid)) == u.(jobs := w.jobs[j := Job(content, pid, Check)]);
    assert u.jobs[j := Job(content, pid, Check)][j := Job(content, pid, Open)] == w.jobs[j := Job(content, pid, Open)];
    assert u.jobs[j := Job(content, pid, Open)][j := Job(content, pid, Write)] == w.jobs[j := Job(content, pid, Write)];
  }

  /** Write, verify and rename. */
  lemma Renames(sha: Sha, w: World, others: map<int, Job>, staged: map<StagedName, Bytes>, j: int, content: Bytes, pid: int)
    requires w.jobs == others[j := Job(content, pid, Write)] && w.staged == staged[StagedName(sha(content), pid) := []]
    requires StagedName(sha(content), pid) !in staged
    ensures var step := Advance(j, 0);
            Next(sha, Next(sha, Next(sha, w, Advance(j, |content|)), step), step) ==
              w.(jobs := others[j := Job(content, pid, Cleanup(true))], staged := staged,
                 target := w.target[sha(content) := content])
  {
    var name := StagedName(sha(content), pid);
    var u := w.(staged := staged[name := content]);
    assert w.staged[name := content] == staged[name := content];
    assert w.jobs[j := Job(content, pid, Verify)] == others[j := Job(content, pid, Verify)];
    assert others[j := Job(content, pid, Verify)][j := Job(content, pid, Replace)] == others[j := Job(content, pid, Replace)];
    assert others[j := Job(content, pid, Replace)][j := Job(content, pid, Cleanup(true))] == others[j := Job(content, pid, Cleanup(true))];
    assert Without(staged[name := content], name) == staged;
  }

  /** It publishes the content, leaves no staging file, and changes no other file. */
  lemma PublicationSucceeds(sha: Sha, w: World, j: int, content: Bytes, pid: int)
    requires j !in w.jobs && SoleWriter(sha, w, content, pid)
    requires sha(content) !in w.target && StagedName(sha(content), pid) !in w.staged
    ensures NextAll(sha, w, Publication(j, content, pid)) ==
              World(w.target[sha(content) := content], w.staged, w.jobs, w.begun + {content}, w.published + {content})
  {
    var step, write := Advance(j, 0), Advance(j, |content|);
    assert Publication(j, content, pid) == [Begin(j, content, pid), step, step] + ([write, step, step] + ([step] + []));
    ThreeSteps(sha, w, Begin(j, content, pid), step, step, [write, step, step] + ([step] + []));
    Opens(sha, w, j, content, pid);
    var w3 := Next(sha, Next(sha, Next(sha, w, Begin(j, content, pid)), step), step);
    ThreeSteps(sha, w3, write, step, step, [step] + []);
    Renames(sha, w3, w.jobs, w.staged, j, content, pid);
    var w6 := Next(sha, Next(sha, Next(sha, w3, write), step), step);
    StepThrough(sha, w6, step, []);
    assert Without(w.staged, StagedName(sha(content), pid)) == w.staged;
    assert w.jobs[j := Job(content, pid, Cleanup(true))] - {j} == w.jobs;
  }

  // ---------- why one writer per staging file ----------

  /** The steps without the rule that a digest has one writer per process. */
  function Unguarded(sha: Sha, w: World, s: Step): World {
    match s
    case Begin(j, content, pid) => if j in w.jobs then w else Start(w, j, content, pid)
    case Advance(_, _) => Next(sha, w, s)
    case Crash(_) => Next(sha, w, s)
  }

  function UnguardedAll(sha: Sha, w: World, steps: seq<Step>): World
    decreases |steps|
  {
    if steps == [] then w else UnguardedAll(sha, Unguarded(sha, w, steps[0]), steps[1..])
  }

  lemma {:induction false} UnguardedJoin(sha: Sha, w: World, a: seq<Step>, b: seq<Step>)
    ensures UnguardedAll(sha, w, a + b) == UnguardedAll(sha, UnguardedAll(sha, w, a), b)
    decreases |a|
  {
    if a == [] {
      assert a + b == b;
    } else {
      assert (a + b)[1..] == a[1..] + b;
      UnguardedJoin(sha, Unguarded(sha, w, a[0]), a[1..], b);
    }
  }

  /** A first publication, up to the point where its staging file is to be renamed. */
  function FirstWriter(content: Bytes): seq<Step> {
    [Begin(0, content, 1), Advance(0, 0), Advance(0, 0), Advance(0, |content|), Advance(0, 0)]
  }

  /** A second one of the same process: its open fails, and its cleanup removes the staging file. */
  function SecondWriter(content: Bytes): seq<Step> {
    [Begin(1, content, 1), Advance(1, 0), Advance(1, 0), Advance(1, 0)]
  }

  /** A third one: it opens the staging file anew and writes a byte. */
  function ThirdWriter(content: Bytes): seq<Step> {
    [Begin(2, content, 1), Advance(2, 0), Advance(2, 0), Advance(2, 1)]
  }

  /** And then the first one renames what it finds. */
  function Race(content: Bytes): seq<Step> {
    ((FirstWriter(content) + SecondWriter(content)) + ThirdWriter(content)) + [Advance(0, 0)]
  }

  lemma UnguardedCons(sha: Sha, w: World, step: Step, rest: seq<Step>)
    ensures UnguardedAll(sha, w, [step] + rest) == UnguardedAll(sha, Unguarded(sha, w, step), rest)
  {
    assert ([step] + rest)[1..] == rest;
  }

  /** Four steps of one publication. */
  lemma FourSteps(sha: Sha, w: World, a: Step, b: Step, c: Step, d: Step)
    ensures UnguardedAll(sha, w, [a, b, c, d]) ==
              Unguarded(sha, Unguarded(sha, Unguarded(sha, Unguarded(sha, w, a), b), c), d)
  {
    assert [a, b, c, d] == [a] + ([b] + ([c] + ([d] + [])));
    UnguardedCons(sha, w, a, [b] + ([c] + ([d] + [])));
    UnguardedCons(sha, Unguarded(sha, w, a), b, [c] + ([d] + []));
    UnguardedCons(sha, Unguarded(sha, Unguarded(sha, w, a), b), c, [d] + []);
    UnguardedCons(sha, Unguarded(sha, Unguarded(sha, Unguarded(sha, w, a), b), c), d, []);
  }

  lemma FirstWrites(sha: Sha, content: Bytes)
    ensures var name := StagedName(sha(content), 1);
            UnguardedAll(sha, EMPTY, FirstWriter(content)) ==
              World(map[], map[name := content], map[0 := Job(content, 1, Replace)], {content}, {})
  {
    var w := Start(EMPTY, 0, content, 1);
    FourSteps(sha, w, Advance(0, 0), Advance(0, 0), Advance(0, |content|), Advance(0, 0));
    var rest := [Advance(0, 0), Advance(0, 0), Advance(0, |content|), Advance(0, 0)];
    assert FirstWriter(content) == [Begin(0, content, 1)] + rest;
    UnguardedCons(sha, EMPTY, Begin(0, content, 1), rest);
    assert w.jobs == map[0 := Job(content, 1, Check)] && w.begun == {content};
  }

  lemma SecondRemoves(sha: Sha, content: Bytes)
    ensures var name := StagedName(sha(content), 1);
            UnguardedAll(sha, World(map[], map[name := content], map[0 := Job(content, 1, Replace)], {content}, {}),
                         SecondWriter(content)) ==
              World(map[], map[], map[0 := Job(content, 1, Replace)], {content}, {})
  {
    var name := StagedName(sha(content), 1);
    var w := World(map[], map[name := content], map[0 := Job(content, 1, Replace)], {content}, {});
    FourSteps(sha, w, Begin(1, content, 1), Advance(1, 0), Advance(1, 0), Advance(1, 0));
    assert w.begun + {content} == w.begun;
    assert Without(w.staged, name) == map[];
    assert w.jobs[1 := Job(content, 1, Cleanup(false))] - {1} == w.jobs;
  }

  lemma ThirdBegins(sha: Sha, content: Bytes)
    requires |content| > 1
    ensures var name := StagedName(sha(content), 1);
            var w := UnguardedAll(sha, World(map[], map[], map[0 := Job(content, 1, Replace)], {content}, {}),
                                  ThirdWriter(content));
            w.target == map[] && name in w.staged && w.staged[name] == content[..1] &&
            0 in w.jobs && w.jobs[0] == Job(content, 1, Replace)
  {
    var w := World(map[], map[], map[0 := Job(content, 1, Replace)], {content}, {});
    FourSteps(sha, w, Begin(2, content, 1), Advance(2, 0), Advance(2, 0), Advance(2, 1));
  }

  /** From the empty store that run leaves a file that does not hash to its name. */
  lemma SharedStagingCorrupts(sha: Sha, content: Bytes)
    requires |content| > 1 && sha(content[..1]) != sha(content)
    ensures !NamesMatch(sha, UnguardedAll(sha, EMPTY, Race(content)).target)
  {
    var a, b, c := FirstWriter(content), SecondWriter(content), ThirdWriter(content);
    UnguardedJoin(sha, EMPTY, (a + b) + c, [Advance(0, 0)]);
    UnguardedJoin(sha, EMPTY, a + b, c);
    UnguardedJoin(sha, EMPTY, a, b);
    FirstWrites(sha, content);
    SecondRemoves(sha, content);
    ThirdBegins(sha, content);
    var w := UnguardedAll(sha, EMPTY, (a + b) + c);
    var u := Unguarded(sha, w, Advance(0, 0));
    assert [Advance(0, 0)] == [Advance(0, 0)] + [];
    UnguardedCons(sha, w, Advance(0, 0), []);
    assert sha(content) in u.target && u.target[sha(content)] == content[..1];
  }

  // ---------- the store object ----------

  datatype PublishError = DigestMismatch | CorruptTarget | StagingExists | CorruptStaging

  class LocalArtifactStore {
    const sha: Sha
    var target: map<string, Bytes>
    var staged: map<StagedName, Bytes>

    constructor (sha: Sha)
      ensures this.sha == sha && target == map[] && staged == map[]
    {
      this.sha := sha;
      target, staged := map[], map[];
    }

    /** An undisturbed publication; the staging file is gone afterwards in every case. */
    method Publish(content: Bytes, expected: Option<string>, pid: int) returns (r: Result<string, PublishError>)
      modifies this
      ensures var hex, name := sha(content), StagedName(sha(content), pid);
              if expected.Some? && expected.value != hex then
                r == Failure(DigestMismatch) && target == old(target) && staged == old(staged)
              else if hex in old(target) then
                r == (if sha(old(target)[hex]) == hex then Success(hex) else Failure(CorruptTarget)) &&
                target == old(target) && staged == old(staged)
              else
                staged == Without(old(staged), name) &&
                if name in old(staged) then r == Failure(StagingExists) && target == old(target)
                else r == Success(hex) && target == old(target)[hex := content]
    {
      var hex := sha(content);
      if expected.Some? && expected.value != hex { return Failure(DigestMismatch); }
      if hex in target {
        if sha(target[hex]) != hex { return Failure(CorruptTarget); }
        return Success(hex);
      }
      var name := StagedName(hex, pid);
      if name in staged {
        r := Failure(StagingExists);
      } else {
        staged := staged[name := []];
        staged := staged[name := content];
        if sha(staged[name]) != hex {
          r := Failure(CorruptStaging);
        } else {
          target := target[hex := staged[name]];
          staged := Without(staged, name);
          r := Success(hex);
        }
      }
      staged := Without(staged, name);
    }
  }
}
