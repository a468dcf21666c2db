/**
 * A file tree with hard links, and the staged signing run over it (src/signing.cpp: `sign_file`,
 * `sign_staged`, `extract_existing`). The companion process may answer and write anything, but
 * only to the output file it was given; the signer may answer anything; any call may throw.
 */
module Staging {
  import opened Wire
  import opened Cms
  import opened PeTable

  type FileBytes = b: Bytes | |b| < TWO_64

  datatype Kind = Pe | Msi | Msix

  /** The files of one signing's private directory. */
  datatype Role = Existing | Unsigned | Content | Signature | Signed | Timestamped | Final | Rechecked

  datatype Path = User(name: Bytes) | Staged | Payload(number: nat) | Work(role: Role)

  /** Paths lead to files; two user paths may lead to the same one. */
  datatype Tree = Tree(links: map<Path, nat>, data: map<nat, FileBytes>, next: nat)

  datatype Options = Options(dump: Option<Bytes>, timestamp: bool, msiDse: bool, recursive: bool)

  // ----- trees

  function At(t: Tree, p: Path): Option<FileBytes>
  {
    if p in t.links && t.links[p] in t.data then Some(t.data[t.links[p]]) else None
  }

  /** A path outside the user's directories shares its file with no other path. */
  ghost predicate Sound(t: Tree)
  {
    && (forall p :: p in t.links ==> t.links[p] in t.data && t.links[p] < t.next)
    && (forall p, q :: p in t.links && q in t.links && p != q && !p.User? ==> t.links[p] != t.links[q])
  }

  function Write(t: Tree, p: Path, bytes: FileBytes): Tree
  {
    if p in t.links then t.(data := t.data[t.links[p] := bytes])
    else Tree(t.links[p := t.next], t.data[t.next := bytes], t.next + 1)
  }

  /** Private directories: of one signing, of the staged copy, of a rewriter's payloads. */
  datatype Directory = WorkDir | StageDir | PayloadDir {
    predicate Holds(p: Path)
    {
      match this
      case WorkDir => p.Work?
      case StageDir => p.Staged?
      case PayloadDir => p.Payload?
    }
  }

  function Without(t: Tree, d: Directory): Tree { t.(links := map p | p in t.links && !d.Holds(p) :: t.links[p]) }

  function Rename(t: Tree, from: Path, to: Path): Tree
    requires from in t.links
  {
    t.(links := (map p | p in t.links && p != from :: t.links[p])[to := t.links[from]])
  }

  predicate SameFile(t: Tree, p: Path, q: Path) { p in t.links && q in t.links && t.links[p] == t.links[q] }

  /** User file `w` is not the one that `--dump-cms` names. */
  predicate Apart(t: Tree, w: Bytes, dump: Option<Bytes>)
  {
    dump.Some? ==> dump.value != w && !SameFile(t, User(w), User(dump.value))
  }

  /** From `a` to `b` no user file has changed, except the one that `--dump-cms` names. */
  ghost predicate Undisturbed(a: Tree, b: Tree, dump: Option<Bytes>)
  {
    forall w :: Apart(a, w, dump) ==> Apart(b, w, dump) && At(b, User(w)) == At(a, User(w))
  }

  /** No file has changed, except perhaps `p` and, if that is a user's file, other user paths to it. */
  ghost predicate Beside(a: Tree, b: Tree, p: Path)
  {
    forall q: Path :: q != p && !(q.User? && p.User?) ==> At(b, q) == At(a, q)
  }

  lemma WriteKeepsSound(t: Tree, p: Path, bytes: FileBytes)
    requires Sound(t)
    ensures Sound(Write(t, p, bytes)) && At(Write(t, p, bytes), p) == Some(bytes)
    ensures !p.User? ==> forall q :: q != p ==> At(Write(t, p, bytes), q) == At(t, q)
  {
  }

  lemma DumpKeepsOthers(t: Tree, w: Bytes, bytes: FileBytes)
    requires Sound(t)
    ensures Undisturbed(t, Write(t, User(w), bytes), Some(w)) && Beside(t, Write(t, User(w), bytes), User(w))
  {
  }

  lemma WriteIs(t: Tree, p: Path, bytes: FileBytes, dump: Option<Bytes>)
    requires Sound(t) && (!p.User? || dump == Some(p.name))
    ensures Sound(Write(t, p, bytes)) && At(Write(t, p, bytes), p) == Some(bytes)
    ensures Undisturbed(t, Write(t, p, bytes), dump) && Beside(t, Write(t, p, bytes), p)
  {
    WriteKeepsSound(t, p, bytes);
    if p.User? {
      DumpKeepsOthers(t, p.name, bytes);
    } else {
      hide Sound, At;
      SameUserLinks(t, Write(t, p, bytes), dump);
    }
  }

  /** Whether two user paths lead to the same file depends only on where they lead. */
  lemma SameUserLinks(a: Tree, b: Tree, dump: Option<Bytes>)
    requires forall w :: User(w) in a.links <==> User(w) in b.links
    requires forall w :: User(w) in a.links ==> a.links[User(w)] == b.links[User(w)]
    requires forall w :: At(b, User(w)) == At(a, User(w))
    ensures Undisturbed(a, b, dump)
  {
    hide At;
  }

  lemma WithoutIs(t: Tree, d: Directory, dump: Option<Bytes>)
    requires Sound(t)
    ensures Sound(Without(t, d)) && Undisturbed(t, Without(t, d), dump)
    ensures forall q :: At(Without(t, d), q) == if d.Holds(q) then None else At(t, q)
  {
    SameUserLinks(t, Without(t, d), dump);
  }

  lemma RenameKeepsSound(t: Tree, from: Path, to: Path)
    requires Sound(t) && from in t.links && !from.User? && from != to
    ensures Sound(Rename(t, from, to))
  {
  }

  lemma RenameIs(t: Tree, from: Path, to: Path, dump: Option<Bytes>)
    requires Sound(t) && from in t.links && !from.User? && from != to
    ensures var u := Rename(t, from, to);
            && Sound(u) && At(u, to) == At(t, from) && At(u, to).Some?
            && (forall q :: q != from && q != to ==> At(u, q) == At(t, q))
            && (!to.User? ==> Undisturbed(t, u, dump))
  {
    RenameKeepsSound(t, from, to);
    if !to.User? {
      hide Sound, At;
      SameUserLinks(t, Rename(t, from, to), dump);
    }
  }

  // ----- histories

  /** One write, one rename, or the removal of a private directory. */
  ghost predicate OneStep(a: Tree, b: Tree)
  {
    || (exists p, bytes :: b == Write(a, p, bytes))
    || (exists from, to :: from in a.links && b == Rename(a, from, to))
    || (exists d :: b == Without(a, d))
  }

  /** From `start` to `tree`, one step at a time. */
  ghost predicate IsTrace(start: Tree, ts: seq<Tree>, tree: Tree)
  {
    && ts != [] && ts[0] == start && ts[|ts| - 1] == tree
    && forall i :: 0 < i < |ts| ==> OneStep(ts[i - 1], ts[i])
  }

  lemma TraceGrows(start: Tree, ts: seq<Tree>, tree: Tree, next: Tree)
    requires IsTrace(start, ts, tree) && OneStep(tree, next)
    ensures IsTrace(start, ts + [next], next)
  {
    hide OneStep;
  }

  lemma LastUndisturbed(start: Tree, ts: seq<Tree>, tree: Tree, next: Tree, dump: Option<Bytes>)
    requires IsTrace(start, ts, tree) && Undisturbed(tree, next, dump)
    requires forall t :: t in ts ==> Undisturbed(start, t, dump)
    ensures forall t :: t in ts + [next] ==> Undisturbed(start, t, dump)
  {
    hide OneStep, At, Apart;
    assert Undisturbed(start, ts[|ts| - 1], dump);
  }

  // ----- what was asked and answered

  datatype Verb = ExtractSignature | RemoveSignature | ExtractData(dse: bool) | AttachSignature(dse: bool, cms: Bytes)
                | AddTimestamp(dse: bool)

  /** What a run of the companion comes to; `output` is what it wrote to its output file, if anything. */
  datatype Reply = NotStarted | Exited(code: int, text: string, output: Option<FileBytes>)

  /**
   * The companion and the signer. Each answer may depend on the turn, so nothing is assumed about
   * either: a result for every `World` is one for every behaviour.
   */
  datatype World = World(companion: (nat, Verb, Option<Bytes>) -> Reply,
                         signer: (nat, Digest) -> Outcome<(Bytes, Bytes)>)

  /** What was asked, with what the input file held, and the answer. */
  datatype Event = Ran(verb: Verb, input: Option<Bytes>, reply: Reply)
                 | Asked(digest: Digest, answer: Outcome<(Bytes, Bytes)>)

  predicate AnswersAt(world: World, turn: nat, v: Event)
  {
    match v
    case Ran(verb, input, reply) => world.companion(turn, verb, input) == reply
    case Asked(digest, answer) => world.signer(turn, digest) == answer
  }

  /** Every event is the world's answer at its turn. */
  ghost predicate Genuine(world: World, log: seq<Event>) { forall i :: 0 <= i < |log| ==> AnswersAt(world, i, log[i]) }

  /** What a companion run left in its output file. */
  function Output(r: Reply): Option<FileBytes> { if r.Exited? then r.output else None }

  // ----- the machine

  class Machine {
    var tree: Tree
    ghost var start: Tree              // the tree when the run began
    ghost var dump: Option<Bytes>      // the one user file that the run may write before the end
    ghost var history: seq<Tree>       // every tree from `start` to `tree`
    const world: World
    var turn: nat                      // how often the companion or the signer was asked
    ghost var log: seq<Event>          // what they were asked and answered, turn by turn
    ghost var failed: bool             // a call into the platform has thrown

    constructor (t: Tree, w: World)
      requires Sound(t)
      ensures tree == t && world == w && Valid() && !failed
    {
      tree, start, dump, history := t, t, None, [t];
      world, turn, log, failed := w, 0, [], false;
    }

    /**
     * The history is complete, nowhere in it has a user file changed, and the log holds the world's own
     * answers.
     */
    ghost predicate Valid()
      reads this
    {
      && Sound(tree) && IsTrace(start, history, tree) && turn == |log| && Genuine(world, log)
      && forall t :: t in history ==> Undisturbed(start, t, dump)
    }

    /** Any call into the platform may throw. */
    method Platform() returns (ok: bool)
      requires Valid()
      modifies this`failed
      ensures Valid() && failed == (old(failed) || !ok)
    {
      ok := *;
      if !ok { failed := true; }
    }

    /** Records a failure of the platform that was found out elsewhere. */
    ghost method Fail()
      requires Valid()
      modifies this`failed
      ensures Valid() && failed
    {
      failed := true;
    }

    method Become(t: Tree)
      requires Valid() && Sound(t) && Undisturbed(tree, t, dump) && OneStep(tree, t)
      modifies this`tree, this`history
      ensures tree == t && Valid() && history == old(history) + [t]
    {
      hide OneStep;
      TraceGrows(start, history, tree, t);
      LastUndisturbed(start, history, tree, t, dump);
      tree, history := t, history + [t];
    }

    method Put(p: Path, bytes: FileBytes)
      requires Valid() && (!p.User? || dump == Some(p.name))
      modifies this`tree, this`history
      ensures Valid() && old(history) <= history && Beside(old(tree), tree, p) && At(tree, p) == Some(bytes)
    {
      hide Sound, Undisturbed, At, Write;
      WriteIs(tree, p, bytes, dump);
      Become(Write(tree, p, bytes));
    }

    /** Writes a file; on failure it may be left with any bytes. */
    method WriteFile(p: Path, bytes: FileBytes) returns (ok: bool)
      requires Valid() && (!p.User? || dump == Some(p.name))
      modifies this`tree, this`history, this`failed
      ensures Valid() && old(history) <= history && Beside(old(tree), tree, p) && (ok ==> At(tree, p) == Some(bytes))
      ensures failed == (old(failed) || !ok)
    {
      hide Sound, Undisturbed, At;
      ok := Platform();
      var written: FileBytes := *;
      if ok { written := bytes; }
      Put(p, written);
    }

    method ReadFile(p: Path) returns (r: Outcome<FileBytes>)
      requires Valid()
      modifies this`failed
      ensures Valid()
      ensures r.Ok? ==> At(tree, p) == Some(r.value) && failed == old(failed)
      ensures r.Throws? ==> failed || (At(tree, p) == None && failed == old(failed))
    {
      var readable := Platform();
      if !readable || At(tree, p).None? { return Throws; }
      return Ok(At(tree, p).value);
    }

    /** Signature data is never read past 16 MiB. */
    method ReadBlob(p: Path) returns (r: Outcome<FileBytes>)
      requires Valid()
      modifies this`failed
      ensures Valid()
      ensures r.Ok? ==> At(tree, p) == Some(r.value) && |r.value| <= MAX_CMS && failed == old(failed)
      ensures r.Throws? ==> failed || At(tree, p) == None || |At(tree, p).value| > MAX_CMS
      ensures old(failed) ==> failed
    {
      r := ReadFile(p);
      if r.Ok? && |r.value| > MAX_CMS { return Throws; }
    }

    /** The world's next answer to a companion run. */
    method AskCompanion(verb: Verb, input: Option<Bytes>) returns (reply: Reply)
      requires Valid()
      modifies this`log, this`turn
      ensures Valid() && log == old(log) + [Ran(verb, input, reply)]
      ensures reply == world.companion(|old(log)|, verb, input)
    {
      hide Sound, Undisturbed, IsTrace;
      reply := world.companion(turn, verb, input);
      log, turn := log + [Ran(verb, input, reply)], turn + 1;
    }

    /** One companion run, with a new file for its output. */
    method Invoke(verb: Verb, input: Path, out: Path) returns (reply: Reply)
      requires Valid() && !out.User? && input != out && !input.User? && At(tree, out) == None
      modifies this`tree, this`history, this`log, this`turn
      ensures Valid() && old(history) <= history && Beside(old(tree), tree, out)
      ensures log == old(log) + [Ran(verb, At(old(tree), input), reply)] && At(tree, out) == Output(reply)
    {
      hide Sound, Undisturbed, At, Write, IsTrace, Genuine;
      reply := AskCompanion(verb, At(tree, input));
      if Output(reply).Some? { Put(out, Output(reply).value); }
    }

    /** The signer may throw or answer with any signature and certificates. */
    method AskSigner(digest: Digest) returns (r: Outcome<(Bytes, Bytes)>)
      requires Valid()
      modifies this`log, this`turn
      ensures Valid() && log == old(log) + [Asked(digest, r)] && r == world.signer(|old(log)|, digest)
    {
      hide Sound, Undisturbed, IsTrace;
      r := world.signer(turn, digest);
      log, turn := log + [Asked(digest, r)], turn + 1;
    }

    /** Replaces `to` in one step, or fails and leaves it as it was. */
    method AtomicReplace(from: Path, to: Path) returns (ok: bool)
      requires Valid() && !from.User? && !to.User? && from != to
      modifies this`tree, this`history, this`failed
      ensures Valid() && old(history) <= history
      ensures (ok ==> failed == old(failed)) && (old(failed) ==> failed)
      ensures !ok ==> failed || At(tree, from) == None || At(tree, to) == None
      ensures if ok then At(old(tree), from).Some? && At(tree, to) == At(old(tree), from) else tree == old(tree)
      ensures forall q :: q != from && q != to ==> At(tree, q) == At(old(tree), q)
    {
      hide Undisturbed, IsTrace, Genuine;
      ok := Platform();
      if !ok || from !in tree.links || to !in tree.links || SameFile(tree, from, to) { return false; }
      RenameIs(tree, from, to, dump);
      Become(Rename(tree, from, to));
    }

    /** Empties a private directory: before use, because it is new, and after, when it is deleted. */
    method Clear(d: Directory)
      requires Valid()
      modifies this`tree, this`history
      ensures Valid() && old(history) <= history
      ensures forall q :: At(tree, q) == if d.Holds(q) then None else At(old(tree), q)
    {
      hide Sound, Undisturbed, At, Without;
      WithoutIs(tree, d, dump);
      Become(Without(tree, d));
    }
  }
}
