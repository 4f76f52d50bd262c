/** OGLAllocatedData and the GPU resources built on it: OGLShader, OGLTexture
    and OGLVertexArrayObject.  They share one module because the registry's
    `deleteAll` calls each resource's `delete`, and each resource's `delete`
    unregisters itself from the registry. */
module OpenGL {
  import opened Failures
  import opened JavaInt
  import opened Sequences
  import opened GlNative
  import Glfw
  import opened VertexArrays
  import opened VaoValidation
  import opened TexturePixels

  /** An instance of OGLAllocatedData itself, not of a subclass. */
  class AllocatedData {
    var deleted: bool

    constructor ()
      ensures !deleted
    {
      deleted := false;
    }

    /** The base `delete`: only sets the flag. */
    method Delete()
      modifies this
      ensures deleted
    {
      deleted := true;
    }
  }

  /** A reference of static type OGLAllocatedData, tagged with its run-time
      class, which decides what `delete()` does. */
  datatype Entry =
    | Plain(data: AllocatedData)
    | ShaderEntry(shader: Shader)
    | TextureEntry(texture: Texture)
    | VaoEntry(vao: VertexArrayObject)
  {
    function Ref(): object {
      match this
      case Plain(d) => d
      case ShaderEntry(s) => s
      case TextureEntry(t) => t
      case VaoEntry(v) => v
    }

    /** `isDeleted` */
    predicate IsDeleted()
      reads Ref()
    {
      match this
      case Plain(d) => d.deleted
      case ShaderEntry(s) => s.deleted
      case TextureEntry(t) => t.deleted
      case VaoEntry(v) => v.deleted
    }
  }

  /** The entry's `delete()` checks a context and its owner's is not current. */
  predicate WrongOwner(e: Entry, windows: Glfw.Windows)
    reads windows
  {
    match e
    case ShaderEntry(s) => s.owner != windows.current
    case TextureEntry(t) => t.owner != windows.current
    case _ => false
  }

  /** An entry is determined by the object it refers to. */
  lemma SameRefSameEntry(a: Entry, b: Entry)
    requires a.Ref() == b.Ref()
    ensures a == b
  {
  }

  /** No object is listed twice. */
  predicate DistinctRefs(entries: seq<Entry>) {
    forall i, j :: 0 <= i < j < |entries| ==> entries[i].Ref() != entries[j].Ref()
  }

  /** What `deleteAll` does at an entry, given the entry's state. */
  datatype Visit =
    // already deleted: `remove(0)` only
    | Skip
    // the base `delete`, which leaves the list alone, then `remove(0)`
    | DeleteBase
    // a subclass `delete`, which unregisters the entry itself, then `remove(0)`
    | DeleteSelf
    // a subclass `delete` that throws because the wrong context is current
    | Refuse

  function KindOf(e: Entry, windows: Glfw.Windows): Visit
    reads e.Ref(), windows
  {
    if e.IsDeleted() then Skip
    else if WrongOwner(e, windows) then Refuse
    else if e.Plain? then DeleteBase
    else DeleteSelf
  }

  function Kinds(entries: seq<Entry>, windows: Glfw.Windows): (kinds: seq<Visit>)
    reads set i | 0 <= i < |entries| :: entries[i].Ref(), windows
    ensures |kinds| == |entries|
  {
    if |entries| == 0 then [] else [KindOf(entries[0], windows)] + Kinds(entries[1..], windows)
  }

  lemma {:induction false} KindsAt(entries: seq<Entry>, windows: Glfw.Windows)
    ensures forall i :: 0 <= i < |entries| ==> Kinds(entries, windows)[i] == KindOf(entries[i], windows)
  {
    if |entries| > 0 {
      KindsAt(entries[1..], windows);
    }
  }

  function Flags(entries: seq<Entry>): (flags: seq<bool>)
    reads set i | 0 <= i < |entries| :: entries[i].Ref()
    ensures |flags| == |entries|
  {
    if |entries| == 0 then [] else [entries[0].IsDeleted()] + Flags(entries[1..])
  }

  lemma {:induction false} FlagsAt(entries: seq<Entry>)
    ensures forall i :: 0 <= i < |entries| ==> Flags(entries)[i] == entries[i].IsDeleted()
  {
    if |entries| > 0 {
      FlagsAt(entries[1..]);
    }
  }

  /** The outcome of a `deleteAll` and which entries it deleted. */
  datatype Walked = Walked(outcome: Outcome, deleted: seq<bool>)

  function NoneDeleted(n: nat): (d: seq<bool>)
    ensures |d| == n && forall i :: 0 <= i < n ==> !d[i]
  {
    seq(n, i => false)
  }

  /** `deleteAll` as written, on the kinds of a list of distinct objects.  A
      subclass `delete` has already unregistered its entry, so the
      `remove(0)` that follows takes the next entry off the list undeleted,
      or throws when there is none. */
  function Walk(kinds: seq<Visit>): (w: Walked)
    ensures |w.deleted| == |kinds|
  {
    if |kinds| == 0 then Walked(Pass, [])
    else match kinds[0]
      case Skip => var rest := Walk(kinds[1..]); Walked(rest.outcome, [false] + rest.deleted)
      case DeleteBase => var rest := Walk(kinds[1..]); Walked(rest.outcome, [true] + rest.deleted)
      case Refuse => Walked(Fail(WrongContext), NoneDeleted(|kinds|))
      case DeleteSelf =>
        if |kinds| == 1 then Walked(Fail(IndexOutOfBounds), [true])
        else var rest := Walk(kinds[2..]); Walked(rest.outcome, [true, false] + rest.deleted)
  }

  /** `deleteAll` never calls `delete()` on an entry that is already deleted,
      and never deletes one whose `delete()` throws. */
  lemma {:induction false} WalkDeletesOnlyLive(kinds: seq<Visit>, i: int)
    requires 0 <= i < |kinds| && Walk(kinds).deleted[i]
    ensures kinds[i] == DeleteBase || kinds[i] == DeleteSelf
  {
    if kinds[0] == Skip || kinds[0] == DeleteBase {
      if i > 0 {
        WalkDeletesOnlyLive(kinds[1..], i - 1);
      }
    } else if kinds[0] == DeleteSelf && i > 1 {
      WalkDeletesOnlyLive(kinds[2..], i - 2);
    }
  }

  /** The walk has reached position `k` and marked the entries before it
      as `done`. */
  predicate WalkedUpTo(kinds: seq<Visit>, k: int, done: seq<bool>)
    requires 0 <= k <= |kinds|
  {
    Walk(kinds) == Walked(Walk(kinds[k..]).outcome, done + Walk(kinds[k..]).deleted)
  }

  /** Passing an entry that is skipped or deleted in place. */
  lemma WalkPassOne(kinds: seq<Visit>, k: int, done: seq<bool>)
    requires 0 <= k < |kinds| && WalkedUpTo(kinds, k, done)
    requires kinds[k] == Skip || kinds[k] == DeleteBase
    ensures WalkedUpTo(kinds, k + 1, done + [kinds[k] == DeleteBase])
  {
    var tail := kinds[k..];
    assert tail[1..] == kinds[k + 1..];
    var d := [kinds[k] == DeleteBase];
    assert done + (d + Walk(tail[1..]).deleted) == (done + d) + Walk(tail[1..]).deleted;
  }

  /** Passing an entry that unregisters itself, and the one dropped after it. */
  lemma WalkPassTwo(kinds: seq<Visit>, k: int, done: seq<bool>)
    requires 0 <= k < |kinds| - 1 && WalkedUpTo(kinds, k, done) && kinds[k] == DeleteSelf
    ensures WalkedUpTo(kinds, k + 2, done + [true, false])
  {
    var tail := kinds[k..];
    assert tail[2..] == kinds[k + 2..];
    assert done + ([true, false] + Walk(tail[2..]).deleted) == (done + [true, false]) + Walk(tail[2..]).deleted;
  }

  /** The entries where the walk throws. */
  lemma WalkStops(kinds: seq<Visit>, k: int, done: seq<bool>)
    requires 0 <= k < |kinds| && WalkedUpTo(kinds, k, done)
    ensures kinds[k] == Refuse ==> Walk(kinds) == Walked(Fail(WrongContext), done + NoneDeleted(|kinds| - k))
    ensures kinds[k] == DeleteSelf && k == |kinds| - 1 ==> Walk(kinds) == Walked(Fail(IndexOutOfBounds), done + [true])
  {
  }

  /** One step of the walk: what the entry at `k` contributes, and where the
      walk goes on. */
  lemma WalkAdvance(kinds: seq<Visit>, k: int, done: seq<bool>)
    requires 0 <= k < |kinds| && WalkedUpTo(kinds, k, done)
    ensures kinds[k] == Skip ==> WalkedUpTo(kinds, k + 1, done + [false])
    ensures kinds[k] == DeleteBase ==> WalkedUpTo(kinds, k + 1, done + [true])
    ensures kinds[k] == DeleteSelf && k < |kinds| - 1 ==> WalkedUpTo(kinds, k + 2, done + [true, false])
    ensures kinds[k] == Refuse ==> Walk(kinds) == Walked(Fail(WrongContext), done + NoneDeleted(|kinds| - k))
    ensures kinds[k] == DeleteSelf && k == |kinds| - 1 ==> Walk(kinds) == Walked(Fail(IndexOutOfBounds), done + [true])
  {
    if kinds[k] == Skip || kinds[k] == DeleteBase {
      WalkPassOne(kinds, k, done);
    } else if kinds[k] == DeleteSelf && k < |kinds| - 1 {
      WalkPassTwo(kinds, k, done);
    } else {
      WalkStops(kinds, k, done);
    }
  }

  /** A walk that has passed every entry is over. */
  lemma WalkFinished(kinds: seq<Visit>, done: seq<bool>)
    requires WalkedUpTo(kinds, |kinds|, done)
    ensures Walk(kinds) == Walked(Pass, done)
  {
    assert kinds[|kinds|..] == [];
    assert done + [] == done;
  }

  /** The documented promise fails: of two live vertex array objects, the
      second is dropped without being deleted. */
  lemma WalkDropsFollower()
    ensures Walk([DeleteSelf, DeleteSelf]) == Walked(Pass, [true, false])
    ensures Walk([DeleteSelf, DeleteBase]) == Walked(Pass, [true, false])
  {
    assert [DeleteSelf, DeleteSelf][2..] == [];
    assert [DeleteSelf, DeleteBase][2..] == [];
  }

  /** A live subclass object last in the list makes `deleteAll` throw, after
      deleting it. */
  lemma {:induction false} WalkThrowsOnLast(kinds: seq<Visit>)
    requires forall i :: 0 <= i < |kinds| ==> kinds[i] == Skip
    ensures Walk(kinds + [DeleteSelf]) == Walked(Fail(IndexOutOfBounds), NoneDeleted(|kinds|) + [true])
  {
    if |kinds| > 0 {
      assert (kinds + [DeleteSelf])[1..] == kinds[1..] + [DeleteSelf];
      WalkThrowsOnLast(kinds[1..]);
      assert NoneDeleted(|kinds|) + [true] == [false] + (NoneDeleted(|kinds| - 1) + [true]);
    } else {
      assert kinds + [DeleteSelf] == [DeleteSelf];
    }
  }

  /** The static `instanceList` of OGLAllocatedData. */
  class Registry {
    var entries: seq<Entry>

    constructor ()
      ensures entries == []
    {
      entries := [];
    }

    /** `register`: null is ignored, anything else is appended. */
    method Register(data: Option<Entry>)
      modifies this`entries
      ensures data.None? ==> entries == old(entries)
      ensures data.Some? ==> entries == old(entries) + [data.value]
    {
      if data.Some? {
        entries := entries + [data.value];
      }
    }

    /** `unregister`: `ArrayList.remove(Object)`; the deleted flag is not
        touched. */
    method Unregister(data: Entry)
      modifies this`entries
      ensures entries == RemoveFirst(old(entries), data)
    {
      entries := RemoveFirst(entries, data);
    }

    /** The virtual call `delete()` on a live entry. */
    method DeleteDispatch(e: Entry, gl: Gl, windows: Glfw.Windows) returns (r: Outcome)
      requires gl.Valid() && !e.IsDeleted()
      modifies e.Ref(), gl`live, this`entries
      ensures gl.Valid()
      ensures r.Pass? <==> !WrongOwner(e, windows)
      ensures r.Fail? ==> r.error == WrongContext && !e.IsDeleted() && entries == old(entries)
      ensures r.Pass? ==> e.IsDeleted()
      ensures r.Pass? ==> entries == if e.Plain? then old(entries) else RemoveFirst(old(entries), e)
    {
      match e
      case Plain(d) =>
        d.Delete();
        r := Pass;
      case ShaderEntry(s) =>
        r := s.Delete(gl, windows, this);
      case TextureEntry(t) =>
        r := t.Delete(gl, windows, this);
      case VaoEntry(v) =>
        r := v.Delete(gl, this);
    }

    /** One pass of the `deleteAll` loop on the front entry `e`, by what
        kind of visit it gets. */
    method DeleteFront(e: Entry, gl: Gl, windows: Glfw.Windows) returns (r: Outcome)
      requires gl.Valid() && |entries| > 0 && entries[0] == e
      modifies e.Ref(), gl`live, this`entries
      ensures gl.Valid()
      ensures old(KindOf(e, windows)) == Skip ==> r == Pass && entries == old(entries)[1..] && e.IsDeleted()
      ensures old(KindOf(e, windows)) == DeleteBase ==> r == Pass && entries == old(entries)[1..] && e.IsDeleted()
      ensures old(KindOf(e, windows)) == Refuse ==>
                r == Fail(WrongContext) && entries == old(entries) && !e.IsDeleted()
      ensures old(KindOf(e, windows)) == DeleteSelf && |old(entries)| == 1 ==>
                r == Fail(IndexOutOfBounds) && entries == [] && e.IsDeleted()
      ensures old(KindOf(e, windows)) == DeleteSelf && |old(entries)| > 1 ==>
                r == Pass && entries == old(entries)[2..] && e.IsDeleted()
    {
      if !e.IsDeleted() {
        var outcome := DeleteDispatch(e, gl, windows);
        if outcome.Fail? {
          return outcome;
        }
      }
      if |entries| == 0 {
        return Fail(IndexOutOfBounds);
      }
      entries := entries[1..];
      r := Pass;
    }

    /** What the `deleteAll` loop knows after visiting `k` entries of the
        distinct objects `listed`, whose kinds and deleted flags at the start
        were `kinds` and `flags`. */
    ghost predicate Tracks(windows: Glfw.Windows, listed: seq<Entry>, kinds: seq<Visit>, flags: seq<bool>,
                           k: int, done: seq<bool>)
      reads this, windows, set i | 0 <= i < |listed| :: listed[i].Ref()
    {
      |kinds| == |listed| && |flags| == |listed| && 0 <= k <= |listed| && |done| == k
      && entries == listed[k..] && DistinctRefs(listed)
      && (forall i :: k <= i < |listed| ==> KindOf(listed[i], windows) == kinds[i])
      && WalkedUpTo(kinds, k, done)
      && (forall i :: 0 <= i < |listed| ==> listed[i].IsDeleted() == (flags[i] || (i < k && done[i])))
    }

    /** Before the first pass nothing is visited. */
    lemma TracksAtStart(windows: Glfw.Windows, listed: seq<Entry>)
      requires entries == listed && DistinctRefs(listed)
      ensures Tracks(windows, listed, Kinds(listed, windows), Flags(listed), 0, [])
    {
      var kinds := Kinds(listed, windows);
      KindsAt(listed, windows);
      FlagsAt(listed);
      assert kinds[0..] == kinds;
      assert [] + Walk(kinds).deleted == Walk(kinds).deleted;
    }

    /** After the last pass the walk is over. */
    lemma TracksAtEnd(windows: Glfw.Windows, listed: seq<Entry>, kinds: seq<Visit>, flags: seq<bool>,
                      k: int, done: seq<bool>)
      requires Tracks(windows, listed, kinds, flags, k, done) && entries == []
      ensures Walk(kinds) == Walked(Pass, done)
      ensures forall i :: 0 <= i < |listed| ==> listed[i].IsDeleted() == (flags[i] || done[i])
    {
      WalkFinished(kinds, done);
    }

    /** A pass that went on past the entry at `k` of the walk, marking the
        entries it passed with `step`, keeps the loop in step with `Walk`. */
    lemma TracksAfterFront(windows: Glfw.Windows, listed: seq<Entry>, kinds: seq<Visit>, flags: seq<bool>,
                           k: int, done: seq<bool>, step: seq<bool>)
      requires |kinds| == |listed| && |flags| == |listed| && 0 <= k < |listed| && |done| == k
      requires DistinctRefs(listed) && WalkedUpTo(kinds, k, done)
      requires kinds[k] == Skip ==> step == [false]
      requires kinds[k] == DeleteBase ==> step == [true]
      requires kinds[k] == DeleteSelf ==> step == [true, false] && k < |listed| - 1
      requires kinds[k] != Refuse
      requires entries == listed[k + |step|..]
      requires forall i :: k < i < |listed| ==> KindOf(listed[i], windows) == kinds[i]
      requires forall i :: 0 <= i < |listed| && i != k ==> listed[i].IsDeleted() == (flags[i] || (i < k && done[i]))
      requires listed[k].IsDeleted() == (flags[k] || step[0])
      ensures Tracks(windows, listed, kinds, flags, k + |step|, done + step)
    {
      WalkAdvance(kinds, k, done);
      var done' := done + step;
      forall i | 0 <= i < |listed|
        ensures listed[i].IsDeleted() == (flags[i] || (i < k + |step| && done'[i]))
      {
        if i > k {
          assert i < k + |step| ==> done'[i] == false;
        }
      }
    }

    /** One pass of the `deleteAll` loop, with what it does to the walk. */
    method DeleteAllStep(gl: Gl, windows: Glfw.Windows, ghost distinct: bool, ghost listed: seq<Entry>,
                         ghost kinds: seq<Visit>, ghost flags: seq<bool>, ghost k: int, ghost done: seq<bool>)
      returns (r: Outcome, ghost k': int, ghost done': seq<bool>, ghost dropped: nat)
      requires gl.Valid() && |entries| > 0
      requires distinct ==> Tracks(windows, listed, kinds, flags, k, done)
      modifies this`entries, gl`live, entries[0].Ref()
      ensures gl.Valid()
      ensures dropped <= |old(entries)| && entries == old(entries)[dropped..]
      ensures dropped > 0 || r.Fail?
      ensures r.Fail? ==> r.error == WrongContext || r.error == IndexOutOfBounds
      ensures distinct && r.Pass? ==> Tracks(windows, listed, kinds, flags, k', done')
      ensures distinct && r.Fail? ==> r == Walk(kinds).outcome
      ensures distinct && r.Fail? ==> forall i :: 0 <= i < |listed| ==>
                listed[i].IsDeleted() == (flags[i] || Walk(kinds).deleted[i])
    {
      var e := entries[0];
      ghost var kind := KindOf(e, windows);
      if distinct {
        assert e == listed[k];
        WalkAdvance(kinds, k, done);
      }
      label visit:
      r := DeleteFront(e, gl, windows);
      if distinct {
        forall i | 0 <= i < |listed| && i != k
          ensures listed[i].IsDeleted() == (flags[i] || (i < k && done[i]))
          ensures k < i ==> KindOf(listed[i], windows) == kinds[i]
        {
          assert listed[i].Ref() != e.Ref();
        }
      }
      ghost var step := if kind == DeleteSelf && |old(entries)| > 1 then [true, false]
                        else if kind == Skip then [false] else [true];
      k', done' := k + |step|, done + step;
      dropped := |old(entries)| - |entries|;
      if distinct && r.Pass? {
        TracksAfterFront(windows, listed, kinds, flags, k, done, step);
      }
    }

    /** `deleteAll` as written.  The list only ever loses its front, and for
        a list of distinct objects the outcome and the deleted entries are
        exactly those of `Walk`. */
    method DeleteAll(gl: Gl, windows: Glfw.Windows) returns (r: Outcome)
      requires gl.Valid()
      modifies this`entries, gl`live, set i | 0 <= i < |entries| :: entries[i].Ref()
      ensures gl.Valid()
      ensures |entries| <= |old(entries)| && entries == old(entries)[|old(entries)| - |entries|..]
      ensures r.Pass? ==> entries == []
      ensures r.Fail? ==> r.error == WrongContext || r.error == IndexOutOfBounds
      ensures DistinctRefs(old(entries)) ==> r == Walk(old(Kinds(entries, windows))).outcome
      ensures DistinctRefs(old(entries)) ==> forall i :: 0 <= i < |old(entries)| ==>
                old(entries)[i].IsDeleted() ==
                (old(Flags(entries))[i] || Walk(old(Kinds(entries, windows))).deleted[i])
    {
      ghost var listed := entries;
      ghost var kinds := Kinds(entries, windows);
      ghost var flags := Flags(entries);
      ghost var distinct := DistinctRefs(listed);
      ghost var k := 0;
      ghost var done: seq<bool> := [];
      assert listed[0..] == listed;
      if distinct {
        TracksAtStart(windows, listed);
      }
      ghost var n: nat := 0;
      while |entries| > 0
        invariant gl.Valid()
        invariant n <= |listed| && entries == listed[n..]
        invariant distinct ==> Tracks(windows, listed, kinds, flags, k, done)
        decreases |entries|
      {
        assert entries[0] == listed[n];
        ghost var dropped;
        r, k, done, dropped := DeleteAllStep(gl, windows, distinct, listed, kinds, flags, k, done);
        DropOfDrop(listed, n, dropped);
        n := n + dropped;
        if r.Fail? {
          return;
        }
      }
      if distinct {
        TracksAtEnd(windows, listed, kinds, flags, k, done);
      }
      r := Pass;
    }

    /** What the corrected loop keeps while it sweeps the entries `listed`,
        whose deleted flags at the start were `flags`: it only removes, every
        entry it has removed is deleted, nothing deleted comes back, and an
        entry live at the start whose owner's context is not current stays
        live. */
    ghost predicate Sweeping(windows: Glfw.Windows, listed: seq<Entry>, flags: seq<bool>)
      reads this, windows, set i | 0 <= i < |listed| :: listed[i].Ref()
    {
      |flags| == |listed|
      && (forall e :: e in entries ==> e in listed)
      && (forall i :: 0 <= i < |listed| ==> listed[i] in entries || listed[i].IsDeleted())
      && (forall i :: 0 <= i < |listed| && flags[i] ==> listed[i].IsDeleted())
      && (forall i :: 0 <= i < |listed| && !flags[i] && WrongOwner(listed[i], windows) ==> !listed[i].IsDeleted())
    }

    /** One pass of the corrected loop: it either removes the front entry,
        deleting it if it was live, or stops at a live entry it may not
        delete. */
    method SweepStep(gl: Gl, windows: Glfw.Windows, ghost listed: seq<Entry>, ghost flags: seq<bool>)
      returns (r: Outcome)
      requires gl.Valid() && |entries| > 0 && Sweeping(windows, listed, flags)
      modifies this`entries, gl`live, entries[0].Ref()
      ensures gl.Valid() && Sweeping(windows, listed, flags)
      ensures r.Pass? ==> |entries| < |old(entries)|
      ensures r.Fail? ==> r.error == WrongContext
      ensures r.Fail? ==> exists i :: 0 <= i < |listed| && !flags[i] && WrongOwner(listed[i], windows)
    {
      var e := entries[0];
      ghost var before := entries;
      ghost var at := IndexOf(listed, e);
      if !e.IsDeleted() {
        assert !flags[at];
        label visit:
        r := DeleteDispatch(e, gl, windows);
        if r.Fail? {
          return;
        }
        forall i | 0 <= i < |listed| && listed[i].Ref() != e.Ref()
          ensures listed[i].IsDeleted() == old@visit(listed[i].IsDeleted())
        {
        }
        forall i | 0 <= i < |listed| && listed[i].Ref() == e.Ref()
          ensures listed[i] == e
        {
          SameRefSameEntry(listed[i], e);
        }
      }
      ghost var middle := entries;
      entries := RemoveFirst(entries, e);
      forall x | x in entries
        ensures x in listed
      {
        RemoveFirstSubset(middle, e, x);
        if middle != before {
          RemoveFirstSubset(before, e, x);
        }
      }
      forall i | 0 <= i < |listed| && listed[i] != e && listed[i] in before
        ensures listed[i] in entries
      {
        RemoveFirstKeeps(before, e, listed[i]);
        RemoveFirstKeeps(middle, e, listed[i]);
      }
      r := Pass;
    }

    /** `deleteAll` as evidently intended: the loop removes the entry it
        visited with `remove(Object)`, which leaves the list alone when
        `delete()` has already unregistered the entry. */
    method DeleteAllCorrected(gl: Gl, windows: Glfw.Windows) returns (r: Outcome)
      requires gl.Valid()
      modifies this`entries, gl`live, set i | 0 <= i < |entries| :: entries[i].Ref()
      ensures gl.Valid()
      ensures forall e :: e in entries ==> e in old(entries)
      ensures r.Pass? ==> entries == [] && forall i :: 0 <= i < |old(entries)| ==> old(entries)[i].IsDeleted()
      ensures r.Fail? ==> r.error == WrongContext
      ensures r.Pass? <==> forall i :: 0 <= i < |old(entries)| && !old(entries[i].IsDeleted()) ==>
                             !WrongOwner(old(entries)[i], windows)
    {
      ghost var listed := entries;
      ghost var flags := Flags(entries);
      FlagsAt(listed);
      while |entries| > 0
        invariant gl.Valid() && Sweeping(windows, listed, flags)
        decreases |entries|
      {
        assert entries[0] in listed;
        r := SweepStep(gl, windows, listed, flags);
        if r.Fail? {
          return;
        }
      }
      r := Pass;
    }
  }

  /** OGLShader: a program linked from a vertex and a fragment shader. */
  class Shader {
    /** The window whose context was current at construction. */
    const owner: Glfw.Window?
    const vertexShader: int
    const fragmentShader: int
    const program: int
    var deleted: bool

    constructor (owner: Glfw.Window?, vertexShader: int, fragmentShader: int, program: int)
      ensures this.owner == owner && this.vertexShader == vertexShader
      ensures this.fragmentShader == fragmentShader && this.program == program
      ensures !deleted
    {
      this.owner, this.vertexShader := owner, vertexShader;
      this.fragmentShader, this.program := fragmentShader, program;
      deleted := false;
    }

    /** The constructor.  The compile statuses and the link status are what
        the driver reports. */
    static method Create(gl: Gl, windows: Glfw.Windows, registry: Registry,
                         vertexSource: Option<string>, fragmentSource: Option<string>,
                         vertexCompiles: bool, fragmentCompiles: bool, links: bool)
      returns (r: Result<Shader>)
      requires gl.Valid()
      modifies gl`live, gl`next, registry`entries
      ensures gl.Valid()
      ensures vertexSource.None? || fragmentSource.None? ==>
                r == Err(NullArgument) && gl.next == old(gl.next)
      ensures vertexSource.Some? && fragmentSource.Some? && !vertexCompiles ==>
                r == Err(CompileFailed(VertexCompile))
      ensures vertexSource.Some? && fragmentSource.Some? && vertexCompiles && !fragmentCompiles ==>
                r == Err(CompileFailed(FragmentCompile))
      ensures vertexSource.Some? && fragmentSource.Some? && vertexCompiles && fragmentCompiles && !links ==>
                r == Err(CompileFailed(ProgramLink))
      ensures r.Err? ==> gl.live == old(gl.live) && registry.entries == old(registry.entries)
      ensures r.Ok? ==>
                vertexSource.Some? && fragmentSource.Some? && vertexCompiles && fragmentCompiles && links
      ensures r.Ok? ==>
                var s := r.value;
                fresh(s) && !s.deleted && s.owner == windows.current
                && registry.entries == old(registry.entries) + [ShaderEntry(s)]
                && s.vertexShader !in old(gl.live) && s.fragmentShader !in old(gl.live)
                && s.program !in old(gl.live)
                && s.vertexShader != s.fragmentShader && s.vertexShader != s.program
                && s.fragmentShader != s.program
                && gl.live == old(gl.live) + {s.vertexShader, s.fragmentShader, s.program}
    {
      if vertexSource.None? || fragmentSource.None? {
        return Err(NullArgument);
      }
      var vertex := gl.Gen();
      if !vertexCompiles {
        gl.Release(vertex);
        return Err(CompileFailed(VertexCompile));
      }
      var fragment := gl.Gen();
      if !fragmentCompiles {
        gl.Release(vertex);
        gl.Release(fragment);
        return Err(CompileFailed(FragmentCompile));
      }
      var prog := gl.Gen();
      if !links {
        gl.Release(vertex);
        gl.Release(fragment);
        gl.Release(prog);
        return Err(CompileFailed(ProgramLink));
      }
      var s := new Shader(windows.current, vertex, fragment, prog);
      registry.Register(Some(ShaderEntry(s)));
      r := Ok(s);
    }

    /** `use` */
    method Use(gl: Gl, windows: Glfw.Windows) returns (r: Outcome)
      modifies gl`program
      ensures deleted ==> r == Fail(AlreadyDeleted)
      ensures !deleted && owner != windows.current ==> r == Fail(WrongContext)
      ensures r.Pass? <==> !deleted && owner == windows.current
      ensures r.Fail? ==> gl.program == old(gl.program)
      ensures r.Pass? ==> gl.program == program
    {
      if deleted {
        return Fail(AlreadyDeleted);
      }
      if owner != windows.current {
        return Fail(WrongContext);
      }
      gl.UseProgram(program);
      r := Pass;
    }

    /** `stopUse`: unbinds whatever program is in use. */
    method StopUse(gl: Gl, windows: Glfw.Windows) returns (r: Outcome)
      modifies gl`program
      ensures deleted ==> r == Fail(AlreadyDeleted)
      ensures !deleted && owner != windows.current ==> r == Fail(WrongContext)
      ensures r.Pass? <==> !deleted && owner == windows.current
      ensures r.Fail? ==> gl.program == old(gl.program)
      ensures r.Pass? ==> gl.program == 0
    {
      if deleted {
        return Fail(AlreadyDeleted);
      }
      if owner != windows.current {
        return Fail(WrongContext);
      }
      gl.UseProgram(0);
      r := Pass;
    }

    /** `getUniformLocation`; `location` is what `glGetUniformLocation`
        answers for this program and name. */
    method GetUniformLocation(windows: Glfw.Windows, name: Option<string>, location: int)
      returns (r: Result<int>)
      ensures name.None? ==> r == Err(NullArgument)
      ensures name.Some? && deleted ==> r == Err(AlreadyDeleted)
      ensures name.Some? && !deleted && owner != windows.current ==> r == Err(WrongContext)
      ensures r.Ok? <==> name.Some? && !deleted && owner == windows.current
      ensures r.Ok? ==> r.value == location
    {
      if name.None? {
        return Err(NullArgument);
      }
      if deleted {
        return Err(AlreadyDeleted);
      }
      if owner != windows.current {
        return Err(WrongContext);
      }
      r := Ok(location);
    }

    /** `delete` */
    method Delete(gl: Gl, windows: Glfw.Windows, registry: Registry) returns (r: Outcome)
      requires gl.Valid()
      modifies this`deleted, gl`live, registry`entries
      ensures gl.Valid()
      ensures old(deleted) ==> r == Fail(AlreadyDeleted)
      ensures !old(deleted) && owner != windows.current ==> r == Fail(WrongContext)
      ensures r.Pass? <==> !old(deleted) && owner == windows.current
      ensures r.Fail? ==>
                deleted == old(deleted) && gl.live == old(gl.live) && registry.entries == old(registry.entries)
      ensures r.Pass? ==>
                deleted && registry.entries == RemoveFirst(old(registry.entries), ShaderEntry(this))
                && gl.live == old(gl.live) - {vertexShader, fragmentShader, program}
    {
      if deleted {
        return Fail(AlreadyDeleted);
      }
      if owner != windows.current {
        return Fail(WrongContext);
      }
      deleted := true;
      registry.Unregister(ShaderEntry(this));
      gl.Release(vertexShader);
      gl.Release(fragmentShader);
      gl.Release(program);
      r := Pass;
    }
  }

  /** A BufferedImage: its size and its pixels as `getRGB` delivers them,
      row by row. */
  datatype Image = Image(width: int, height: int, pixels: seq<bv32>)
  {
    predicate Valid() {
      width >= 1 && height >= 1 && |pixels| == width * height
    }
  }

  /** OGLTexture.  The texture slot is the number of the texture unit. */
  class Texture {
    /** The window whose context was current at construction. */
    const owner: Glfw.Window?
    const handle: int
    var width: int
    var height: int
    var lastSlot: Option<nat>
    var deleted: bool

    constructor (owner: Glfw.Window?, handle: int, width: int, height: int)
      ensures this.owner == owner && this.handle == handle
      ensures this.width == width && this.height == height
      ensures lastSlot.None? && !deleted
    {
      this.owner, this.handle := owner, handle;
      this.width, this.height := width, height;
      lastSlot := None;
      deleted := false;
    }

    /** The part of the constructor after the pixels are packed: a new
        texture bound to unit 0, configured, filled and unbound again. */
    static method Upload(gl: Gl, windows: Glfw.Windows, width: int, height: int, rgba: seq<bv8>,
                         wrapMode: int, resizeFilter: int)
      returns (t: Texture)
      requires gl.Valid()
      modifies gl`live, gl`next, gl`activeUnit, gl`unitBinding, gl`textureParams, gl`textureImages
      ensures gl.Valid()
      ensures fresh(t) && !t.deleted && t.owner == windows.current
      ensures t.width == width && t.height == height && t.lastSlot == Some(0)
      ensures t.handle !in old(gl.live) && gl.live == old(gl.live) + {t.handle}
      ensures gl.textureParams == old(gl.textureParams)[t.handle := (wrapMode, resizeFilter)]
      ensures gl.textureImages == old(gl.textureImages)[t.handle := rgba]
      ensures gl.activeUnit == 0 && gl.unitBinding == old(gl.unitBinding)[0 := 0]
    {
      var h := gl.Gen();
      t := new Texture(windows.current, h, width, height);
      var bound := t.Bind(gl, windows, Some(0));
      gl.TexParameters(h, wrapMode, resizeFilter);
      gl.TexImage(h, rgba);
      var unbound := t.Unbind(gl, windows);
    }

    /** The constructor as written.  The pixels are read from the original
        image with the size after power-of-two rounding, so whenever that
        size differs the read runs outside the image. */
    static method Create(gl: Gl, windows: Glfw.Windows, image: Option<Image>, wrapMode: Option<int>,
                         resizeFilter: Option<int>, forcePowerOfTwo: bool)
      returns (r: Result<Texture>)
      requires gl.Valid()
      requires image.Some? ==> image.value.Valid()
      requires image.Some? && forcePowerOfTwo ==>
                 image.value.width <= 0x4000_0000 && image.value.height <= 0x4000_0000
      modifies gl`live, gl`next, gl`activeUnit, gl`unitBinding, gl`textureParams, gl`textureImages
      ensures gl.Valid()
      ensures image.None? || wrapMode.None? || resizeFilter.None? ==> r == Err(NullArgument)
      ensures r.Ok? <==>
                image.Some? && wrapMode.Some? && resizeFilter.Some? &&
                (forcePowerOfTwo ==>
                   IsPowerOfTwo(image.value.width) && image.value.width >= 2 &&
                   IsPowerOfTwo(image.value.height) && image.value.height >= 2)
      ensures r.Err? ==> r.error == NullArgument || r.error == CoordinateOutOfBounds
      ensures r.Err? ==>
                gl.live == old(gl.live) && gl.unitBinding == old(gl.unitBinding)
                && gl.textureParams == old(gl.textureParams) && gl.textureImages == old(gl.textureImages)
      ensures r.Ok? ==>
                var t := r.value;
                fresh(t) && !t.deleted && t.owner == windows.current && t.lastSlot == Some(0)
                && t.width == image.value.width && t.height == image.value.height
                && t.handle !in old(gl.live) && gl.live == old(gl.live) + {t.handle}
                && gl.textureParams == old(gl.textureParams)[t.handle := (wrapMode.value, resizeFilter.value)]
                && gl.textureImages == old(gl.textureImages)[t.handle := Packed(image.value.pixels)]
                && gl.activeUnit == 0 && gl.unitBinding == old(gl.unitBinding)[0 := 0]
    {
      if image.None? || wrapMode.None? || resizeFilter.None? {
        return Err(NullArgument);
      }
      var img := image.value;
      var width, height := img.width, img.height;
      if forcePowerOfTwo {
        width := NextPowerOfTwo(width);
        height := NextPowerOfTwo(height);
        SmallestPowerOfTwoFixed(width, img.width);
        SmallestPowerOfTwoFixed(height, img.height);
      }
      if width > img.width || height > img.height {
        return Err(CoordinateOutOfBounds);
      }
      var buffer := PackPixels(img.pixels, img.width, img.height);
      var t := Upload(gl, windows, width, height, buffer[..], wrapMode.value, resizeFilter.value);
      r := Ok(t);
    }

    /** The constructor as evidently intended: the pixels uploaded are those
        of `scaled`, the image redrawn at the texture's size, and the new
        texture registers itself as the class comment says it does. */
    static method CreateFromScaled(gl: Gl, windows: Glfw.Windows, registry: Registry, image: Option<Image>,
                                   scaled: Image, wrapMode: Option<int>, resizeFilter: Option<int>,
                                   forcePowerOfTwo: bool)
      returns (r: Result<Texture>)
      requires gl.Valid()
      requires image.Some? ==> image.value.Valid()
      requires image.Some? && forcePowerOfTwo ==>
                 image.value.width <= 0x4000_0000 && image.value.height <= 0x4000_0000
      requires scaled.Valid()
      requires image.Some? && forcePowerOfTwo ==>
                 SmallestPowerOfTwoAtLeast(scaled.width, image.value.width) &&
                 SmallestPowerOfTwoAtLeast(scaled.height, image.value.height)
      requires image.Some? && !forcePowerOfTwo ==>
                 scaled.width == image.value.width && scaled.height == image.value.height
      modifies gl`live, gl`next, gl`activeUnit, gl`unitBinding, gl`textureParams, gl`textureImages
      modifies registry`entries
      ensures gl.Valid()
      ensures r.Err? <==> image.None? || wrapMode.None? || resizeFilter.None?
      ensures r.Err? ==> r.error == NullArgument && gl.live == old(gl.live)
      ensures r.Err? ==> registry.entries == old(registry.entries)
      ensures r.Ok? ==> registry.entries == old(registry.entries) + [TextureEntry(r.value)]
      ensures r.Ok? ==>
                var t := r.value;
                fresh(t) && !t.deleted && t.owner == windows.current && t.lastSlot == Some(0)
                && t.width == scaled.width && t.height == scaled.height
                && t.handle !in old(gl.live) && gl.live == old(gl.live) + {t.handle}
                && gl.textureParams == old(gl.textureParams)[t.handle := (wrapMode.value, resizeFilter.value)]
                && gl.textureImages == old(gl.textureImages)[t.handle := Packed(scaled.pixels)]
                && gl.activeUnit == 0 && gl.unitBinding == old(gl.unitBinding)[0 := 0]
    {
      if image.None? || wrapMode.None? || resizeFilter.None? {
        return Err(NullArgument);
      }
      var img := image.value;
      var width, height := img.width, img.height;
      if forcePowerOfTwo {
        width := NextPowerOfTwo(width);
        height := NextPowerOfTwo(height);
        SmallestPowerOfTwoUnique(width, scaled.width, img.width);
        SmallestPowerOfTwoUnique(height, scaled.height, img.height);
      }
      var buffer := PackPixels(scaled.pixels, width, height);
      var t := Upload(gl, windows, width, height, buffer[..], wrapMode.value, resizeFilter.value);
      registry.Register(Some(TextureEntry(t)));
      r := Ok(t);
    }

    /** `bind` */
    method Bind(gl: Gl, windows: Glfw.Windows, slot: Option<nat>) returns (r: Outcome)
      modifies this`lastSlot, gl`activeUnit, gl`unitBinding
      ensures slot.None? ==> r == Fail(NullArgument)
      ensures slot.Some? && deleted ==> r == Fail(AlreadyDeleted)
      ensures slot.Some? && !deleted && owner != windows.current ==> r == Fail(WrongContext)
      ensures r.Pass? <==> slot.Some? && !deleted && owner == windows.current
      ensures r.Fail? ==>
                lastSlot == old(lastSlot) && gl.activeUnit == old(gl.activeUnit)
                && gl.unitBinding == old(gl.unitBinding)
      ensures r.Pass? ==>
                lastSlot == slot && gl.activeUnit == slot.value
                && gl.unitBinding == old(gl.unitBinding)[slot.value := handle]
    {
      if slot.None? {
        return Fail(NullArgument);
      }
      if deleted {
        return Fail(AlreadyDeleted);
      }
      if owner != windows.current {
        return Fail(WrongContext);
      }
      gl.ActiveTexture(slot.value);
      gl.BindTexture(handle);
      lastSlot := slot;
      r := Pass;
    }

    /** `unbind`: clears the unit this texture was last bound to, whatever
        is bound there now. */
    method Unbind(gl: Gl, windows: Glfw.Windows) returns (r: Outcome)
      modifies gl`activeUnit, gl`unitBinding
      ensures deleted ==> r == Fail(AlreadyDeleted)
      ensures !deleted && owner != windows.current ==> r == Fail(WrongContext)
      ensures !deleted && owner == windows.current && lastSlot.None? ==> r == Fail(NullPointer)
      ensures r.Pass? <==> !deleted && owner == windows.current && lastSlot.Some?
      ensures r.Fail? ==> gl.activeUnit == old(gl.activeUnit) && gl.unitBinding == old(gl.unitBinding)
      ensures r.Pass? ==>
                gl.activeUnit == lastSlot.value && gl.unitBinding == old(gl.unitBinding)[lastSlot.value := 0]
    {
      if deleted {
        return Fail(AlreadyDeleted);
      }
      if owner != windows.current {
        return Fail(WrongContext);
      }
      if lastSlot.None? {
        return Fail(NullPointer);
      }
      gl.ActiveTexture(lastSlot.value);
      gl.BindTexture(0);
      r := Pass;
    }

    /** `delete`: the size reads as zero afterwards. */
    method Delete(gl: Gl, windows: Glfw.Windows, registry: Registry) returns (r: Outcome)
      requires gl.Valid()
      modifies this`deleted, this`width, this`height, gl`live, registry`entries
      ensures gl.Valid()
      ensures old(deleted) ==> r == Fail(AlreadyDeleted)
      ensures !old(deleted) && owner != windows.current ==> r == Fail(WrongContext)
      ensures r.Pass? <==> !old(deleted) && owner == windows.current
      ensures r.Fail? ==>
                deleted == old(deleted) && width == old(width) && height == old(height)
                && gl.live == old(gl.live) && registry.entries == old(registry.entries)
      ensures r.Pass? ==>
                deleted && width == 0 && height == 0
                && registry.entries == RemoveFirst(old(registry.entries), TextureEntry(this))
                && gl.live == old(gl.live) - {handle}
    {
      if deleted {
        return Fail(AlreadyDeleted);
      }
      if owner != windows.current {
        return Fail(WrongContext);
      }
      deleted := true;
      registry.Unregister(TextureEntry(this));
      gl.Release(handle);
      width, height := 0, 0;
      r := Pass;
    }
  }

  /** The vertex arrays of a constructor argument in which none is null. */
  function Present(arrays: seq<Option<VertexArray>>): (r: seq<VertexArray>)
    requires forall i :: 0 <= i < |arrays| ==> arrays[i].Some?
    ensures |r| == |arrays| && forall i :: 0 <= i < |arrays| ==> r[i] == arrays[i].value
  {
    if |arrays| == 0 then [] else [arrays[0].value] + Present(arrays[1..])
  }

  /** The numbers from 0 up to, not including, `n`. */
  function Below(n: int): (s: set<int>)
    ensures forall i :: i in s <==> 0 <= i < n
  {
    if n <= 0 then {} else Below(n - 1) + {n - 1}
  }

  /** The names in a sequence of handles. */
  function Elements(handles: seq<int>): set<int> {
    set h | h in handles
  }

  /** `vao` and `vbos` are names new with respect to `before`, all different,
      and `after` holds exactly `before` and them. */
  predicate FreshHandles(before: set<int>, after: set<int>, vao: int, vbos: seq<int>) {
    vao !in before
    && (forall i :: 0 <= i < |vbos| ==> vbos[i] !in before && vbos[i] != vao)
    && (forall i, j :: 0 <= i < j < |vbos| ==> vbos[i] != vbos[j])
    && after == before + {vao} + Elements(vbos)
  }

  /** A name new with respect to all of them extends them. */
  lemma FreshHandlesExtend(before: set<int>, after: set<int>, vao: int, vbos: seq<int>, h: int)
    requires FreshHandles(before, after, vao, vbos) && h !in after
    ensures FreshHandles(before, after + {h}, vao, vbos + [h])
  {
    forall i | 0 <= i < |vbos|
      ensures vbos[i] != h
    {
      assert vbos[i] in Elements(vbos);
    }
    assert Elements(vbos + [h]) == Elements(vbos) + {h};
  }

  /** Buffer `i` holds the data of vertex array `i` and is attribute `i` of
      the vertex array object `vao`, with the array's vertex size. */
  predicate VertexBuffers(bufferData: map<int, BufferData>, attribPointers: map<(int, int), (int, int)>,
                          vao: int, vbos: seq<int>, arrays: seq<VertexArray>)
    requires |vbos| == |arrays|
    reads set i | 0 <= i < |arrays| :: arrays[i].vertexData
  {
    forall i :: 0 <= i < |arrays| ==>
      vbos[i] in bufferData && bufferData[vbos[i]] == Floats(arrays[i].vertexData[..])
      && (vao, i) in attribPointers && attribPointers[(vao, i)] == (vbos[i], arrays[i].vertexSize)
  }

  /** One more buffer, for the next vertex array. */
  lemma VertexBuffersExtend(bufferData: map<int, BufferData>, attribPointers: map<(int, int), (int, int)>,
                            vao: int, vbos: seq<int>, arrays: seq<VertexArray>, h: int)
    requires |vbos| < |arrays| && VertexBuffers(bufferData, attribPointers, vao, vbos, arrays[..|vbos|])
    requires h !in vbos
    ensures var k := |vbos|;
      VertexBuffers(bufferData[h := Floats(arrays[k].vertexData[..])],
                    attribPointers[(vao, k) := (h, arrays[k].vertexSize)], vao, vbos + [h], arrays[..k + 1])
  {
  }

  /** Filling some other buffer leaves the vertex buffers alone. */
  lemma VertexBuffersKeep(bufferData: map<int, BufferData>, attribPointers: map<(int, int), (int, int)>,
                          vao: int, vbos: seq<int>, arrays: seq<VertexArray>, h: int, data: BufferData)
    requires |vbos| == |arrays| && VertexBuffers(bufferData, attribPointers, vao, vbos, arrays)
    requires h !in vbos
    ensures VertexBuffers(bufferData[h := data], attribPointers, vao, vbos, arrays)
  {
  }

  /** OGLVertexArrayObject: one buffer per vertex array, at the attribute
      index of its position, and one index buffer in the last slot. */
  class VertexArrayObject {
    const vaoHandle: int
    const vboHandles: array<int>
    const vertexCount: int
    var deleted: bool

    constructor (vaoHandle: int, vboHandles: array<int>, vertexCount: int)
      ensures this.vaoHandle == vaoHandle && this.vboHandles == vboHandles
      ensures this.vertexCount == vertexCount && !deleted
    {
      this.vaoHandle, this.vboHandles, this.vertexCount := vaoHandle, vboHandles, vertexCount;
      deleted := false;
    }

    /** The attribute indices of the vertex buffers: all slots but the last. */
    function AttribIndices(): set<int> {
      Below(vboHandles.Length - 1)
    }

    /** The constructor.  Every vertex array passed in was accepted by the
        OGLVertexArray constructor. */
    static method Create(gl: Gl, registry: Registry, vertexArrays: Option<seq<Option<VertexArray>>>,
                         indices: Option<seq<int32>>)
      returns (r: Result<VertexArrayObject>)
      requires gl.Valid()
      requires vertexArrays.Some? ==> forall i :: 0 <= i < |vertexArrays.value| && vertexArrays.value[i].Some? ==>
                 vertexArrays.value[i].value.Valid()
      modifies gl`live, gl`next, gl`vertexArray, gl`bufferData, gl`attribPointers, registry`entries
      ensures gl.Valid()
      ensures vertexArrays.None? || indices.None? ||
              (exists i :: 0 <= i < |vertexArrays.value| && vertexArrays.value[i].None?) ==>
                r == Err(NullArgument)
      ensures vertexArrays.Some? && indices.Some? &&
              (forall i :: 0 <= i < |vertexArrays.value| ==> vertexArrays.value[i].Some?) ==>
                ((exists i :: 0 <= i < |indices.value| && indices.value[i] < 0) ==> r == Err(NegativeIndex))
                && ((forall i :: 0 <= i < |indices.value| ==> indices.value[i] >= 0) ==>
                      (r.Ok? <==> IndicesAtMostCounts(indices.value, Present(vertexArrays.value))))
      ensures r.Err? ==> r.error == NullArgument || r.error == NegativeIndex || r.error == IndexOutOfRange
      ensures r.Err? ==>
                gl.live == old(gl.live) && gl.bufferData == old(gl.bufferData)
                && gl.attribPointers == old(gl.attribPointers) && registry.entries == old(registry.entries)
      ensures r.Ok? ==>
                var v := r.value;
                var arrays := Present(vertexArrays.value);
                fresh(v) && fresh(v.vboHandles) && !v.deleted
                && v.vboHandles.Length == |arrays| + 1 && v.vertexCount == |indices.value|
                && registry.entries == old(registry.entries) + [VaoEntry(v)]
                && gl.vertexArray == 0
                && FreshHandles(old(gl.live), gl.live, v.vaoHandle, v.vboHandles[..])
                && VertexBuffers(gl.bufferData, gl.attribPointers, v.vaoHandle, v.vboHandles[..|arrays|], arrays)
                && v.vboHandles[|arrays|] in gl.bufferData
                && gl.bufferData[v.vboHandles[|arrays|]] == Ints(indices.value)
    {
      if vertexArrays.None? || indices.None? {
        return Err(NullArgument);
      }
      var missing := ContainsNull(vertexArrays.value);
      if missing {
        return Err(NullArgument);
      }
      var nonNegative := OnlyPositiveValues(indices.value);
      if !nonNegative {
        return Err(NegativeIndex);
      }
      var arrays := Present(vertexArrays.value);
      var max := MaxValue(indices.value);
      var min := MinVertexCount(arrays);
      IndexCheckAsWritten(indices.value, arrays, max as int, min);
      if max as int > min {
        return Err(IndexOutOfRange);
      }
      var v := Build(gl, arrays, indices.value);
      registry.Register(Some(VaoEntry(v)));
      r := Ok(v);
    }

    /** The constructor after its checks: the names, the binding and the
        buffers. */
    static method Build(gl: Gl, arrays: seq<VertexArray>, indices: seq<int32>) returns (v: VertexArrayObject)
      requires gl.Valid()
      modifies gl`live, gl`next, gl`vertexArray, gl`bufferData, gl`attribPointers
      ensures gl.Valid()
      ensures fresh(v) && fresh(v.vboHandles) && !v.deleted
      ensures v.vboHandles.Length == |arrays| + 1 && v.vertexCount == |indices|
      ensures gl.vertexArray == 0
      ensures FreshHandles(old(gl.live), gl.live, v.vaoHandle, v.vboHandles[..])
      ensures VertexBuffers(gl.bufferData, gl.attribPointers, v.vaoHandle, v.vboHandles[..|arrays|], arrays)
      ensures v.vboHandles[|arrays|] in gl.bufferData && gl.bufferData[v.vboHandles[|arrays|]] == Ints(indices)
    {
      var vao := gl.Gen();
      var vbos := new int[|arrays| + 1];
      v := new VertexArrayObject(vao, vbos, |indices|);
      var bound := v.Bind(gl);
      assert Elements([]) == {};
      v.MakeVbos(gl, arrays, old(gl.live));
      ghost var made := vbos[..|arrays|];
      ghost var live1, data1 := gl.live, gl.bufferData;
      v.MakeIndices(gl, indices);
      var h := vbos[|arrays|];
      assert vbos[..] == made + [h];
      assert vbos[..|arrays|] == made;
      FreshHandlesExtend(old(gl.live), live1, vao, made, h);
      VertexBuffersKeep(data1, gl.attribPointers, vao, made, arrays, h, Ints(indices));
      var unbound := v.Unbind(gl);
    }

    /** The loop of the constructor: `makeVBO` for each vertex array in
        turn, with this object bound. */
    method MakeVbos(gl: Gl, arrays: seq<VertexArray>, ghost live0: set<int>)
      requires gl.Valid() && gl.vertexArray == vaoHandle && vboHandles.Length == |arrays| + 1
      requires FreshHandles(live0, gl.live, vaoHandle, [])
      modifies vboHandles, gl`live, gl`next, gl`bufferData, gl`attribPointers
      ensures gl.Valid() && vboHandles.Length == |arrays| + 1
      ensures FreshHandles(live0, gl.live, vaoHandle, vboHandles[..|arrays|])
      ensures VertexBuffers(gl.bufferData, gl.attribPointers, vaoHandle, vboHandles[..|arrays|], arrays)
    {
      assert vboHandles[..0] == [];
      for index := 0 to |arrays|
        invariant gl.Valid() && gl.vertexArray == vaoHandle
        invariant FreshHandles(live0, gl.live, vaoHandle, vboHandles[..index])
        invariant VertexBuffers(gl.bufferData, gl.attribPointers, vaoHandle, vboHandles[..index], arrays[..index])
      {
        ghost var made := vboHandles[..index];
        ghost var live1, data1, pointers1 := gl.live, gl.bufferData, gl.attribPointers;
        MakeVbo(gl, index, arrays[index]);
        var h := vboHandles[index];
        assert vboHandles[..index + 1] == made + [h];
        FreshHandlesExtend(live0, live1, vaoHandle, made, h);
        VertexBuffersExtend(data1, pointers1, vaoHandle, made, arrays, h);
      }
      assert arrays[..|arrays|] == arrays;
    }

    /** `makeVBO`: a new buffer for vertex array `index`, holding its data and
        attached as attribute `index` of the bound vertex array object. */
    method MakeVbo(gl: Gl, index: int, vertexArray: VertexArray)
      requires gl.Valid() && 0 <= index < vboHandles.Length
      modifies vboHandles, gl`live, gl`next, gl`bufferData, gl`attribPointers
      ensures gl.Valid()
      ensures vboHandles[index] !in old(gl.live) && gl.live == old(gl.live) + {vboHandles[index]}
      ensures vboHandles[..] == old(vboHandles[..])[index := vboHandles[index]]
      ensures gl.bufferData == old(gl.bufferData)[vboHandles[index] := Floats(vertexArray.vertexData[..])]
      ensures gl.attribPointers ==
                old(gl.attribPointers)[(gl.vertexArray, index) := (vboHandles[index], vertexArray.vertexSize)]
    {
      var h := gl.Gen();
      vboHandles[index] := h;
      gl.BufferDataOf(h, Floats(vertexArray.vertexData[..]));
      gl.VertexAttribPointer(index, h, vertexArray.vertexSize);
    }

    /** `makeIndices`: a new buffer in the last slot, holding the indices. */
    method MakeIndices(gl: Gl, indices: seq<int32>)
      requires gl.Valid() && vboHandles.Length >= 1
      modifies vboHandles, gl`live, gl`next, gl`bufferData
      ensures gl.Valid()
      ensures var last := vboHandles.Length - 1;
        vboHandles[last] !in old(gl.live) && gl.live == old(gl.live) + {vboHandles[last]}
        && vboHandles[..] == old(vboHandles[..])[last := vboHandles[last]]
        && gl.bufferData == old(gl.bufferData)[vboHandles[last] := Ints(indices)]
    {
      var h := gl.Gen();
      vboHandles[vboHandles.Length - 1] := h;
      gl.BufferDataOf(h, Ints(indices));
    }

    /** `bind` */
    method Bind(gl: Gl) returns (r: Outcome)
      modifies gl`vertexArray
      ensures r.Fail? <==> deleted
      ensures r.Fail? ==> r.error == AlreadyDeleted && gl.vertexArray == old(gl.vertexArray)
      ensures r.Pass? ==> gl.vertexArray == vaoHandle
    {
      if deleted {
        return Fail(AlreadyDeleted);
      }
      gl.BindVertexArray(vaoHandle);
      r := Pass;
    }

    /** `unbind`: unbinds whatever vertex array object is bound. */
    method Unbind(gl: Gl) returns (r: Outcome)
      modifies gl`vertexArray
      ensures r.Fail? <==> deleted
      ensures r.Fail? ==> r.error == AlreadyDeleted && gl.vertexArray == old(gl.vertexArray)
      ensures r.Pass? ==> gl.vertexArray == 0
    {
      if deleted {
        return Fail(AlreadyDeleted);
      }
      gl.BindVertexArray(0);
      r := Pass;
    }

    /** `enable`: switches on exactly the attribute indices of the vertex
        buffers. */
    method Enable(gl: Gl) returns (r: Outcome)
      modifies gl`enabledAttribs
      ensures r.Fail? <==> deleted
      ensures r.Fail? ==> r.error == AlreadyDeleted && gl.enabledAttribs == old(gl.enabledAttribs)
      ensures r.Pass? ==> gl.enabledAttribs == old(gl.enabledAttribs) + AttribIndices()
    {
      if deleted {
        return Fail(AlreadyDeleted);
      }
      var index := 0;
      while index < vboHandles.Length - 1
        invariant 0 <= index && (index <= vboHandles.Length - 1 || index == 0)
        invariant gl.enabledAttribs == old(gl.enabledAttribs) + Below(index)
      {
        gl.EnableVertexAttribArray(index);
        index := index + 1;
      }
      assert Below(index) == AttribIndices();
      r := Pass;
    }

    /** `disable`: switches off exactly the attribute indices of the vertex
        buffers. */
    method Disable(gl: Gl) returns (r: Outcome)
      modifies gl`enabledAttribs
      ensures r.Fail? <==> deleted
      ensures r.Fail? ==> r.error == AlreadyDeleted && gl.enabledAttribs == old(gl.enabledAttribs)
      ensures r.Pass? ==> gl.enabledAttribs == old(gl.enabledAttribs) - AttribIndices()
    {
      if deleted {
        return Fail(AlreadyDeleted);
      }
      var index := 0;
      while index < vboHandles.Length - 1
        invariant 0 <= index && (index <= vboHandles.Length - 1 || index == 0)
        invariant gl.enabledAttribs == old(gl.enabledAttribs) - Below(index)
      {
        gl.DisableVertexAttribArray(index);
        index := index + 1;
      }
      assert Below(index) == AttribIndices();
      r := Pass;
    }

    /** `draw`: one indexed draw of all indices. */
    method Draw(gl: Gl) returns (r: Outcome)
      modifies gl`draws
      ensures r.Fail? <==> deleted
      ensures r.Fail? ==> r.error == AlreadyDeleted && gl.draws == old(gl.draws)
      ensures r.Pass? ==> gl.draws == old(gl.draws) + [vertexCount]
    {
      if deleted {
        return Fail(AlreadyDeleted);
      }
      gl.DrawElements(vertexCount);
      r := Pass;
    }

    /** `delete`: releases the vertex array object and every buffer. */
    method Delete(gl: Gl, registry: Registry) returns (r: Outcome)
      requires gl.Valid()
      modifies this`deleted, gl`live, registry`entries
      ensures gl.Valid()
      ensures r.Fail? <==> old(deleted)
      ensures r.Fail? ==>
                r.error == AlreadyDeleted && gl.live == old(gl.live) && registry.entries == old(registry.entries)
      ensures r.Pass? ==>
                deleted && registry.entries == RemoveFirst(old(registry.entries), VaoEntry(this))
                && gl.live == old(gl.live) - {vaoHandle} - Elements(vboHandles[..])
    {
      if deleted {
        return Fail(AlreadyDeleted);
      }
      deleted := true;
      registry.Unregister(VaoEntry(this));
      gl.Release(vaoHandle);
      ghost var live1 := gl.live;
      ghost var entries1 := registry.entries;
      for k := 0 to vboHandles.Length
        invariant gl.Valid() && deleted && registry.entries == entries1
        invariant gl.live == live1 - Elements(vboHandles[..k])
      {
        gl.Release(vboHandles[k]);
        assert vboHandles[..k + 1] == vboHandles[..k] + [vboHandles[k]];
        assert Elements(vboHandles[..k + 1]) == Elements(vboHandles[..k]) + {vboHandles[k]};
      }
      assert vboHandles[..vboHandles.Length] == vboHandles[..];
      r := Pass;
    }
  }

  /** The texture constructor as written never registers the texture, so
      `deleteAll` does not reach it and it stays live. */
  method UnregisteredTextureScenario(gl: Gl, windows: Glfw.Windows, registry: Registry, image: Image,
                                     wrapMode: int, resizeFilter: int)
    returns (t: Texture, r: Outcome)
    requires gl.Valid() && image.Valid()
    modifies gl, registry, set i | 0 <= i < |registry.entries| :: registry.entries[i].Ref()
    ensures TextureEntry(t) !in registry.entries && !t.deleted
  {
    var created := Texture.Create(gl, windows, Some(image), Some(wrapMode), Some(resizeFilter), false);
    t := created.value;
    assert TextureEntry(t) !in registry.entries;
    r := registry.DeleteAll(gl, windows);
  }

  /** The intended constructor registers the texture, and the intended
      `deleteAll` then deletes it and empties the list. */
  method RegisteredTextureScenario(gl: Gl, windows: Glfw.Windows, registry: Registry, image: Image,
                                   wrapMode: int, resizeFilter: int)
    returns (t: Texture, r: Outcome)
    requires gl.Valid() && image.Valid() && registry.entries == []
    modifies gl, registry
    ensures r == Pass && registry.entries == [] && t.deleted
  {
    var created := Texture.CreateFromScaled(gl, windows, registry, Some(image), image,
                                            Some(wrapMode), Some(resizeFilter), false);
    t := created.value;
    ghost var listed := registry.entries;
    assert listed == [TextureEntry(t)] && !WrongOwner(listed[0], windows);
    r := registry.DeleteAllCorrected(gl, windows);
    assert listed[0].IsDeleted();
  }

  /** Two vertex array objects are registered; `deleteAll` deletes the first,
      whose `delete` unregisters it, and then removes the second from the
      list without deleting it. */
  method DeleteAllDropsScenario(gl: Gl, windows: Glfw.Windows, registry: Registry)
    returns (first: VertexArrayObject, second: VertexArrayObject, r: Outcome)
    requires gl.Valid() && registry.entries == []
    modifies gl, registry
    ensures r == Pass && registry.entries == []
    ensures first.deleted && !second.deleted
  {
    first := CreateEmpty(gl, registry);
    second := CreateEmpty(gl, registry);
    assert registry.entries == [VaoEntry(first), VaoEntry(second)];
    KindsAt(registry.entries, windows);
    FlagsAt(registry.entries);
    assert Kinds(registry.entries, windows) == [DeleteSelf, DeleteSelf];
    assert Flags(registry.entries) == [false, false];
    WalkDropsFollower();
    r := registry.DeleteAll(gl, windows);
  }

  /** A vertex array object without vertex arrays and without indices,
      which the constructor accepts. */
  method CreateEmpty(gl: Gl, registry: Registry) returns (v: VertexArrayObject)
    requires gl.Valid()
    modifies gl`live, gl`next, gl`vertexArray, gl`bufferData, gl`attribPointers, registry`entries
    ensures gl.Valid() && fresh(v) && !v.deleted
    ensures registry.entries == old(registry.entries) + [VaoEntry(v)]
  {
    var r := VertexArrayObject.Create(gl, registry, Some([]), Some([]));
    v := r.value;
  }

  /** One vertex array object is registered; `deleteAll` deletes it and
      then fails on `remove(0)` of the emptied list. */
  method DeleteAllThrowsScenario(gl: Gl, windows: Glfw.Windows, registry: Registry)
    returns (only: VertexArrayObject, r: Outcome)
    requires gl.Valid() && registry.entries == []
    modifies gl, registry
    ensures r == Fail(IndexOutOfBounds) && only.deleted
  {
    only := CreateEmpty(gl, registry);
    ghost var listed := registry.entries;
    assert listed == [VaoEntry(only)];
    KindsAt(listed, windows);
    ghost var kinds := Kinds(listed, windows);
    assert kinds == [] + [DeleteSelf];
    WalkThrowsOnLast([]);
    r := registry.DeleteAll(gl, windows);
    assert r == Walk(kinds).outcome;
  }
}
