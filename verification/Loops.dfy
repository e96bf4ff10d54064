/** Attaching and detaching loop devices, over the node's table of attached devices. */
module Loops {
  import opened Prelude
  import opened Losetup

  /** What the outside does to one look-up: whether stat and `losetup -j` work, which other files it also lists. */
  datatype LookEnv = LookEnv(stats: bool, lists: bool, alike: set<string>)

  datatype Look = Found(device: string) | Missing | Failed

  /** `losetup -j`: the entries of the file, and of files with its inode, in table order. */
  function Listed(loops: seq<LoopEntry>, path: string, alike: set<string>): (l: seq<LoopEntry>)
    ensures forall e :: e in l ==> e in loops
    ensures DeviceOf(l, path) == DeviceOf(loops, path)
  {
    if loops == [] then []
    else if loops[0].Shown() == path || loops[0].Shown() in alike then [loops[0]] + Listed(loops[1..], path, alike)
    else Listed(loops[1..], path, alike)
  }

  function LookSpec(loops: seq<LoopEntry>, present: bool, path: string, env: LookEnv): Look {
    if !env.stats then Failed
    else if !present then Missing
    else if !env.lists then Failed
    else match DeviceOf(loops, path) case Some(d) => Found(d) case None => Missing
  }

  datatype AttachEnv = AttachEnv(look: LookEnv, makes: Option<LoopEntry>)

  /** A device found is used again; otherwise one is made, if the file is there. */
  function AttachSpec(loops: seq<LoopEntry>, present: bool, path: string, env: AttachEnv)
    : (seq<LoopEntry>, Option<string>) {
    match LookSpec(loops, present, path, env.look)
    case Found(d) => (loops, Some(d))
    case Failed => (loops, None)
    case Missing =>
      if present && env.makes.Some? then (loops + [env.makes.value], Some(env.makes.value.device)) else (loops, None)
  }

  /** How `losetup -d` ends: detached, failed with the device node gone, or failed. */
  datatype RemoveOutcome = Removes | NodeGone | Fails

  datatype DetachEnv = DetachEnv(look: LookEnv, removes: RemoveOutcome)

  function WithoutDevice(loops: seq<LoopEntry>, device: string): (l: seq<LoopEntry>)
    ensures forall e :: e in l <==> e in loops && e.device != device
  {
    if loops == [] then []
    else if loops[0].device == device then WithoutDevice(loops[1..], device)
    else
      assert loops == [loops[0]] + loops[1..];
      [loops[0]] + WithoutDevice(loops[1..], device)
  }

  /** No device found counts as detached. */
  function DetachSpec(loops: seq<LoopEntry>, present: bool, path: string, env: DetachEnv): (seq<LoopEntry>, bool) {
    match LookSpec(loops, present, path, env.look)
    case Failed => (loops, false)
    case Missing => (loops, true)
    case Found(d) =>
      match env.removes
      case Removes => (WithoutDevice(loops, d), true)
      case NodeGone => (loops, true)
      case Fails => (loops, false)
  }

  /** An entry whose line prints, fits the reader's buffer even when its file is gone, and reads back. */
  predicate Readable(e: LoopEntry) {
    Printable(e) && |e.device| + |e.info| + |e.backing| <= MAX_TOKEN - 20
  }

  ghost predicate AllReadable(loops: seq<LoopEntry>) {
    forall i :: 0 <= i < |loops| ==> Readable(loops[i])
  }

  /** Every entry reads back; no file that is still there and no device occurs twice. */
  ghost predicate LoopsInv(loops: seq<LoopEntry>) {
    && AllReadable(loops)
    && (forall i, j :: 0 <= i < j < |loops| && !loops[i].gone && !loops[j].gone ==>
          loops[i].backing != loops[j].backing)
    && (forall i, j :: 0 <= i < j < |loops| ==> loops[i].device != loops[j].device)
  }

  /** Files are removed: a device attached to one keeps it, marked as gone. */
  function FilesRemoved(loops: seq<LoopEntry>, paths: set<string>): (l: seq<LoopEntry>)
    ensures |l| == |loops|
    ensures forall i :: 0 <= i < |loops| ==>
      l[i] == if !loops[i].gone && loops[i].backing in paths then loops[i].(gone := true) else loops[i]
  {
    if loops == [] then []
    else
      var first := if !loops[0].gone && loops[0].backing in paths then loops[0].(gone := true) else loops[0];
      [first] + FilesRemoved(loops[1..], paths)
  }

  lemma GoneIsReadable(e: LoopEntry)
    requires Readable(e) && !e.gone
    ensures Readable(e.(gone := true))
  {
    var s, end := e.backing, " (deleted)";
    assert e.Shown() == s;
    assert e.(gone := true).Shown() == s + end;
    assert forall i :: 0 <= i < |end| ==> end[i] != '\n' && end[i] != '/';
    forall i | 0 <= i < |s + end| ensures (s + end)[i] != '\n' {
      assert i < |s| ==> s[i] in s;
    }
  }

  lemma FilesRemovedKeeps(loops: seq<LoopEntry>, paths: set<string>)
    requires LoopsInv(loops)
    ensures LoopsInv(FilesRemoved(loops, paths))
    ensures var l := FilesRemoved(loops, paths);
            forall i :: 0 <= i < |loops| ==> l[i].gone || l[i].backing !in paths
  {
    var l := FilesRemoved(loops, paths);
    forall i | 0 <= i < |loops| ensures Readable(l[i]) {
      assert Readable(loops[i]);
      if l[i] != loops[i] { GoneIsReadable(loops[i]); }
    }
    assert forall i :: 0 <= i < |loops| ==> l[i].device == loops[i].device && l[i].backing == loops[i].backing;
  }

  /** The device a `losetup -f` makes: unused, and backed by the file asked for. */
  ghost predicate FreshLoop(loops: seq<LoopEntry>, path: string, makes: Option<LoopEntry>) {
    makes.Some? ==>
      && Readable(makes.value) && makes.value.backing == path && !makes.value.gone
      && forall i :: 0 <= i < |loops| ==> loops[i].device != makes.value.device
  }

  /** Attaching never gives a file a second device. */
  lemma AttachKeepsOne(loops: seq<LoopEntry>, present: bool, path: string, env: AttachEnv)
    requires LoopsInv(loops) && FreshLoop(loops, path, env.makes)
    ensures LoopsInv(AttachSpec(loops, present, path, env).0)
    ensures var (loops', d) := AttachSpec(loops, present, path, env); d.Some? ==> DeviceOf(loops', path) == d
  {
    var (loops', d) := AttachSpec(loops, present, path, env);
    if loops' != loops {
      DeviceOfAppended(loops, env.makes.value);
      AppendedKeeps(loops, env.makes.value);
    }
  }

  lemma AppendedKeeps(loops: seq<LoopEntry>, e: LoopEntry)
    requires LoopsInv(loops) && Readable(e) && !e.gone && DeviceOf(loops, e.backing).None?
    requires forall i :: 0 <= i < |loops| ==> loops[i].device != e.device
    ensures LoopsInv(loops + [e])
  {
    forall i | 0 <= i < |loops| ensures loops[i].gone || loops[i].backing != e.backing {
      assert !loops[i].gone ==> loops[i].Shown() == loops[i].backing;
    }
  }

  lemma {:induction false} DeviceOfAppended(loops: seq<LoopEntry>, e: LoopEntry)
    requires DeviceOf(loops, e.Shown()).None?
    ensures DeviceOf(loops + [e], e.Shown()) == Some(e.device)
  {
    if loops != [] {
      DeviceOfAppended(loops[1..], e);
      assert (loops + [e])[1..] == loops[1..] + [e];
    }
  }

  lemma LoopsInvCons(e: LoopEntry, tail: seq<LoopEntry>, rest: seq<LoopEntry>)
    requires LoopsInv([e] + tail) && LoopsInv(rest) && forall r :: r in rest ==> r in tail
    ensures LoopsInv([e] + rest)
  {
    forall i | 0 <= i < |rest|
      ensures (rest[i].gone || e.gone || rest[i].backing != e.backing) && rest[i].device != e.device
    {
      assert rest[i] in rest && rest[i] in tail;
      var j :| 0 <= j < |tail| && tail[j] == rest[i];
      var all := [e] + tail;
      assert all[0] == e && all[j + 1] == tail[j];
    }
    assert ([e] + tail)[0] == e;
  }

  lemma {:induction false} WithoutKeepsOne(loops: seq<LoopEntry>, device: string)
    requires LoopsInv(loops)
    ensures LoopsInv(WithoutDevice(loops, device))
  {
    if loops != [] {
      WithoutKeepsOne(loops[1..], device);
      if loops[0].device != device {
        assert loops == [loops[0]] + loops[1..];
        LoopsInvCons(loops[0], loops[1..], WithoutDevice(loops[1..], device));
      }
    }
  }

  lemma DetachKeepsOne(loops: seq<LoopEntry>, present: bool, path: string, env: DetachEnv)
    requires LoopsInv(loops)
    ensures LoopsInv(DetachSpec(loops, present, path, env).0)
  {
    if DeviceOf(loops, path).Some? {
      WithoutKeepsOne(loops, DeviceOf(loops, path).value);
    }
  }

  lemma {:induction false} WithoutUnused(loops: seq<LoopEntry>, device: string)
    requires forall i :: 0 <= i < |loops| ==> loops[i].device != device
    ensures WithoutDevice(loops, device) == loops
  {
    if loops != [] { WithoutUnused(loops[1..], device); }
  }

  lemma {:induction false} WithoutLast(loops: seq<LoopEntry>, e: LoopEntry)
    requires forall i :: 0 <= i < |loops| ==> loops[i].device != e.device
    ensures WithoutDevice(loops + [e], e.device) == loops
  {
    if loops != [] {
      WithoutLast(loops[1..], e);
      assert (loops + [e])[1..] == loops[1..] + [e];
    } else {
      assert ([e])[1..] == [];
    }
  }

  /** Detaching undoes attaching a file that had no device. */
  lemma DetachUndoesAttach(loops: seq<LoopEntry>, path: string, env: AttachEnv, denv: DetachEnv)
    requires FreshLoop(loops, path, env.makes) && DeviceOf(loops, path).None?
    requires AttachSpec(loops, true, path, env).1.Some?
    requires denv.look.stats && denv.look.lists && denv.removes.Removes?
    ensures DetachSpec(AttachSpec(loops, true, path, env).0, true, path, denv) == (loops, true)
  {
    DeviceOfAppended(loops, env.makes.value);
    WithoutLast(loops, env.makes.value);
  }

  lemma ReadableFits(loops: seq<LoopEntry>, listed: seq<LoopEntry>)
    requires AllReadable(loops) && forall e :: e in listed ==> e in loops
    ensures Fitting(listed) == listed && forall i :: 0 <= i < |listed| ==> Printable(listed[i])
  {
    forall e | e in listed ensures Readable(e) && Short(e) {
      var i :| 0 <= i < |loops| && loops[i] == e;
    }
    assert forall i :: 0 <= i < |listed| ==> listed[i] in listed;
  }

  class LoopTable {
    var loops: seq<LoopEntry>

    method GetLoopDevice(present: bool, path: string, env: LookEnv) returns (look: Look)
      requires AllReadable(loops) && Absolute(path)
      ensures look == LookSpec(loops, present, path, env)
    {
      if !env.stats {
        return Failed;
      }
      if !present {
        return Missing;
      }
      if !env.lists {
        return Failed;
      }
      var listed := Listed(loops, path, env.alike);
      ReadableFits(loops, listed);
      ReadingUndoesPrinting(listed, path);
      var device := ParseLosetupOutputForDevice(Print(listed), path);
      look := if device.Some? then Found(device.value) else Missing;
    }

    method AttachFileDevice(present: bool, path: string, env: AttachEnv) returns (device: Option<string>)
      requires AllReadable(loops) && Absolute(path)
      modifies this
      ensures (loops, device) == AttachSpec(old(loops), present, path, env)
    {
      var look := GetLoopDevice(present, path, env.look);
      if look.Failed? {
        return None;
      }
      if look.Found? {
        return Some(look.device);
      }
      if !present || env.makes.None? {
        return None;
      }
      loops := loops + [env.makes.value];
      device := Some(env.makes.value.device);
    }

    method DetachFileDevice(present: bool, path: string, env: DetachEnv) returns (ok: bool)
      requires AllReadable(loops) && Absolute(path)
      modifies this
      ensures (loops, ok) == DetachSpec(old(loops), present, path, env)
    {
      var look := GetLoopDevice(present, path, env.look);
      if look.Failed? {
        return false;
      }
      ok := true;
      if look.Found? {
        ok := !env.removes.Fails?;
        if env.removes.Removes? {
          loops := WithoutDevice(loops, look.device);
        }
      }
    }
  }
}
