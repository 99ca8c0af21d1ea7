/**
 Inbounds under the users that are recorded at them: what deleting or transferring an inbound
 does to recorded tags.
 */
module InboundUsers {
  import I = Inbounds
  import opened UserIndex
  import opened UserSafety

  /** The table of users and the manager speak of the same inbounds. */
  ghost predicate Same(s: Store, m: I.Manager) {
    s.inbounds.Keys == m.inbounds.Keys
  }

  /** An operation on inbounds leaves the users alone, and an inbound that stays keeps its clients. */
  ghost predicate Carries(s: Store, s': Store, m': I.Manager) {
    && s'.users == s.users && Same(s', m')
    && forall t :: t in s.inbounds && t in s'.inbounds ==> s'.inbounds[t] == s.inbounds[t]
  }

  /** Some user has the tag in his record. */
  ghost predicate InUse(s: Store, tag: string) {
    exists n :: Recorded(s, tag, n)
  }

  /** Recorded tags stay real exactly when every recorded tag still has its inbound. */
  lemma ListedIffThere(s: Store, s': Store, m': I.Manager)
    requires Keyed(s) && AllListed(s) && Carries(s, s', m')
    ensures AllListed(s') <==> forall t :: InUse(s, t) ==> t in m'.inbounds
  {
    forall t, n | Recorded(s, t, n) ensures t in s.inbounds && (Holds(s', t, n) <==> t in m'.inbounds) {
      assert Listed(s, s.users[n]);
      assert Holds(s, t, n);
    }
    if AllListed(s') {
      forall t | InUse(s, t) ensures t in m'.inbounds {
        var n :| Recorded(s, t, n);
        assert Listed(s', s'.users[n]);
      }
    }
    if forall t :: InUse(s, t) ==> t in m'.inbounds {
      forall n | n in s'.users ensures Listed(s', s'.users[n]) {
        forall t | t in s'.users[n].tags ensures Holds(s', t, n) {
          assert Recorded(s, t, n);
        }
      }
    }
  }

  lemma InUseIsThere(s: Store, t: string)
    requires Keyed(s) && AllListed(s) && InUse(s, t)
    ensures t in s.inbounds
  {
    var n :| Recorded(s, t, n);
    assert Listed(s, s.users[n]);
  }

  /** A deletion leaves a recorded tag without an inbound exactly when it succeeds for one that is in use. */
  lemma DeleteLeavesTag(s: Store, s': Store, m: I.Manager, tag: string, o: I.Removal)
    requires Keyed(s) && AllListed(s) && Same(s, m) && Carries(s, s', I.DeleteInbound(m, tag, o).0)
    ensures AllListed(s') <==> !(tag != I.API_TAG && tag in m.inbounds && o.Removed? && InUse(s, tag))
    ensures I.DeleteInbound(m, tag, o).1 <==> tag != I.API_TAG && tag in m.inbounds && o.Removed?
  {
    var m' := I.DeleteInbound(m, tag, o).0;
    ListedIffThere(s, s', m');
    hide AllListed, InUse, Carries;
    forall t | InUse(s, t) ensures t in m.inbounds {
      InUseIsThere(s, t);
    }
  }

  /** A transfer does so exactly when it ends with the inbound gone, and never when it succeeds. */
  lemma TransferLeavesTag(s: Store, s': Store, m: I.Manager, tag: string, newPort: int, o: I.Answers)
    requires Keyed(s) && AllListed(s) && Same(s, m) && I.InOrder(m)
    requires tag in m.inbounds && tag != I.API_TAG && I.InRange(newPort)
    requires Carries(s, s', I.TransferInbound(m, tag, newPort, o).0)
    ensures var was := m.inbounds[tag].port;
            var moved := newPort != was && I.Moves(m, newPort, o);
            && I.TransferInbound(m, tag, newPort, o).1 == moved
            && (AllListed(s') <==>
                  !(InUse(s, tag) && !moved && o.removed.Removed?
                    && (newPort == was || !I.InRange(was) || !o.restored.Installed?)))
  {
    var m' := I.TransferInbound(m, tag, newPort, o).0;
    I.TransferOutcomes(m, tag, newPort, o);
    ListedIffThere(s, s', m');
    hide AllListed, InUse, Carries, I.TransferInbound, I.InOrder, I.Moves;
    forall t | InUse(s, t) ensures t in m.inbounds {
      InUseIsThere(s, t);
    }
  }

  /** One inbound, one user recorded at it, and a deletion that succeeds. */
  lemma DeleteMayLeaveTag()
    ensures var m := I.Manager(map["t" := I.Inbound("t", "t", 100, "vless", "", "")], {100}, {"t"}, false);
            var s := Store(map["u" := User("u", "p", 0, ["t"])], map["t" := Inbound(true, ["u"])], {("t", "u")});
            var (m', ok) := I.DeleteInbound(m, "t", I.Removed);
            var s' := s.(inbounds := map[], runtime := {});
            && I.Consistent(m) && Same(s, m) && AllListed(s)
            && ok && Carries(s, s', m') && !AllListed(s')
  {
    var m := I.Manager(map["t" := I.Inbound("t", "t", 100, "vless", "", "")], {100}, {"t"}, false);
    var s := Store(map["u" := User("u", "p", 0, ["t"])], map["t" := Inbound(true, ["u"])], {("t", "u")});
    assert m.inbounds["t"].port in m.ports;
    assert Listed(s, s.users["u"]);
    var s' := s.(inbounds := map[], runtime := {});
    assert "t" in s'.users["u"].tags && !Holds(s', "t", "u");
    assert !Listed(s', s'.users["u"]);
  }
}
