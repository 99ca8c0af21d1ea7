/**
 ProxyManager as the running program has it: inbounds are objects whose port is
 changed in place, and the runtime is an object that may refuse anything.
 */
module ProxyManager {
  import opened Inbounds

  /** The runtime: it answers as it likes, but touches no tag it was not asked about. */
  class Runtime {
    var live: set<string>

    constructor (live: set<string>)
      ensures this.live == live
    {
      this.live := live;
    }

    method AddInbound(tag: string) returns (ok: bool, ghost o: Install)
      modifies this
      ensures live == AfterInstall(old(live), tag, o) && ok == o.Installed?
    {
      if * {
        live := live + {tag};
        ok, o := true, Installed;
      } else if * {
        live := live + {tag};
        ok, o := false, HalfInstalled;
      } else {
        ok, o := false, Refused;
      }
    }

    method RemoveInbound(tag: string) returns (ok: bool, ghost o: Removal)
      modifies this
      ensures live == AfterRemoval(old(live), tag, o) && ok == o.Removed?
    {
      if * {
        live := live - {tag};
        ok, o := true, Removed;
      } else if * {
        live := live - {tag};
        ok, o := false, HalfRemoved;
      } else {
        ok, o := false, Denied;
      }
    }
  }

  class InboundObject {
    const tag: string
    const config: Inbound  // everything but the port
    var port: int

    constructor (config: Inbound)
      ensures Abs() == config
    {
      tag, this.config, port := config.tag, config, config.port;
    }

    function Abs(): (i: Inbound)
      reads this
    {
      config.(tag := tag, port := port)
    }
  }

  class Manager {
    var inbounds: map<string, InboundObject>
    var listeningPorts: set<int>
    var needFlush: bool
    const runtime: Runtime

    constructor (runtime: Runtime)
      ensures Valid() && this.runtime == runtime
      ensures Abs() == Inbounds.Manager(map[], {}, runtime.live, false)
    {
      inbounds, listeningPorts, needFlush, this.runtime := map[], {}, false, runtime;
    }

    /** An inbound is found only under its own tag. */
    ghost predicate Valid()
      reads this
    {
      forall t :: t in inbounds ==> inbounds[t].tag == t
    }

    ghost function Abs(): (m: Inbounds.Manager)
      reads this, runtime, inbounds.Values
    {
      Inbounds.Manager(Contents(inbounds), listeningPorts, runtime.live, needFlush)
    }

    static ghost function Contents(objects: map<string, InboundObject>): map<string, Inbound>
      reads objects.Values
    {
      map t | t in objects :: objects[t].Abs()
    }

    /** Adds to the two maps. */
    method Index(i: InboundObject) returns (ok: bool)
      requires Valid()
      modifies this`inbounds, this`listeningPorts
      ensures Valid() && ok == CanIndex(old(Abs()), i.Abs())
      ensures Abs() == if ok then Inbounds.Index(old(Abs()), i.Abs()) else old(Abs())
      ensures ok ==> inbounds == old(inbounds)[i.tag := i]
      ensures !ok ==> inbounds == old(inbounds)
    {
      if i.tag == "" || i.port in listeningPorts || i.tag in inbounds {
        return false;
      }
      inbounds := inbounds[i.tag := i];
      listeningPorts := listeningPorts + {i.port};
      ok := true;
    }

    /** Removes from the two maps. */
    method Unindex(tag: string) returns (ok: bool)
      requires Valid()
      modifies this`inbounds, this`listeningPorts
      ensures Valid() && ok == (tag in old(inbounds))
      ensures inbounds == old(inbounds) - {tag}
      ensures Abs() == if ok then Inbounds.Unindex(old(Abs()), tag) else old(Abs())
    {
      if tag !in inbounds {
        return false;
      }
      var i := inbounds[tag];
      inbounds := inbounds - {tag};
      listeningPorts := listeningPorts - {i.port};
      ok := true;
    }

    method AddInbound(i: InboundObject) returns (ok: bool, ghost o: Install)
      requires Valid()
      modifies this, runtime
      ensures Valid()
      ensures (Abs(), ok) == Inbounds.AddInbound(old(Abs()), i.Abs(), o)
      ensures inbounds == if ok then old(inbounds)[i.tag := i] else old(inbounds)
    {
      ok, o := false, Refused;
      if i.tag == API_TAG || i.port < MIN_PORT || i.port > MAX_PORT {
        return;
      }
      var indexed := Index(i);
      if !indexed {
        return;
      }
      ok, o := Install(i);
      assert !ok ==> inbounds == old(inbounds);
    }

    /** Installs an indexed inbound, and takes it out of the index again if that fails. */
    method Install(i: InboundObject) returns (ok: bool, ghost o: Install)
      requires Valid() && i.tag in inbounds && inbounds[i.tag] == i
      modifies this, runtime
      ensures Valid() && ok == o.Installed?
      ensures var m, live := old(Abs()), AfterInstall(old(runtime.live), i.config.configTag, o);
              Abs() == if ok then m.(live := live, needFlush := true) else Inbounds.Unindex(m, i.tag).(live := live)
      ensures inbounds == if ok then old(inbounds) else old(inbounds) - {i.tag}
    {
      ok, o := runtime.AddInbound(i.config.configTag);
      if ok {
        needFlush := true;
      } else {
        var _ := Unindex(i.tag);
      }
    }

    method DeleteInbound(tag: string) returns (ok: bool, ghost o: Removal)
      requires Valid()
      modifies this, runtime
      ensures Valid()
      ensures (Abs(), ok) == Inbounds.DeleteInbound(old(Abs()), tag, o)
      ensures inbounds == if ok then old(inbounds) - {tag} else old(inbounds)
    {
      ok, o := false, Denied;
      if tag == API_TAG {
        return;
      }
      var done;
      done, o := runtime.RemoveInbound(tag);
      if !done {
        return;
      }
      ok := Unindex(tag);
      if ok { needFlush := true; }
      assert inbounds == if ok then old(inbounds) - {tag} else old(inbounds);
    }

    method TransferInbound(tag: string, newPort: int) returns (ok: bool, ghost o: Answers)
      requires Valid()
      modifies this, runtime, inbounds.Values
      ensures Valid()
      ensures (Abs(), ok) == Inbounds.TransferInbound(old(Abs()), tag, newPort, o)
    {
      ok, o := false, Answers(Denied, Refused, Denied, Refused);
      if tag == API_TAG || newPort < MIN_PORT || newPort > MAX_PORT || tag !in inbounds {
        return;
      }
      var i := inbounds[tag];
      ghost var was := i.Abs();
      var deleted, removed := DeleteInbound(tag);
      o := o.(removed := removed);
      if !deleted {
        return;
      }
      var oldPort := i.port;
      if oldPort == newPort {
        return;
      }
      ghost var m1 := Abs();
      i.port := newPort;
      assert Abs() == m1;
      ok, o := Move(i, tag, oldPort, removed);
    }

    /**
     The second half of a transfer: the inbound, removed and with its new port, is added; if that fails it
     is put back.
     */
    method Move(i: InboundObject, tag: string, oldPort: int, ghost removed: Removal)
      returns (ok: bool, ghost o: Answers)
      requires Valid() && i.tag == tag && tag !in inbounds
      modifies this, runtime, i
      ensures Valid() && o.removed == removed
      ensures var was := old(i.Abs());
              var (m2, added) := Inbounds.AddInbound(old(Abs()), was, o.moved);
              && ok == added
              && Abs() == if added then m2 else
                   var m3 := Inbounds.DeleteInbound(m2, tag, o.cleaned).0;
                   Inbounds.AddInbound(m3, was.(port := oldPort), o.restored).0
    {
      var added, moved := AddInbound(i);
      o := Answers(removed, moved, Denied, Refused);
      if added {
        return true, o;
      }
      var _, cleaned := DeleteInbound(tag);
      ghost var m3 := Abs();
      i.port := oldPort;
      assert Abs() == m3;
      var _, restored := AddInbound(i);
      o := Answers(removed, moved, cleaned, restored);
      ok := false;
    }

    method CopyInbound(srcTag: string, tag: string, protocol: string, port: int, settings: string)
        returns (ok: bool, ghost o: Install)
      requires Valid()
      modifies this, runtime
      ensures Valid()
      ensures (Abs(), ok) == Inbounds.CopyInbound(old(Abs()), srcTag, tag, protocol, port, settings, o)
    {
      ok, o := false, Refused;
      if srcTag == API_TAG || port < MIN_PORT || port > MAX_PORT || srcTag == tag || srcTag !in inbounds
          || tag in inbounds {
        return;
      }
      var copy := new InboundObject(CopyNewInbound(inbounds[srcTag].Abs(), protocol, tag, port, settings));
      ok, o := AddInbound(copy);
    }
  }
}
