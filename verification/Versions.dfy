/** Optimistic concurrency, once for all stores: accepted updates of an entity form the chain 1, 2, 3, ... */
module Versions {
  import opened Uuid
  import GoText
  import Accounts
  import Households
  import Users

  /** What one accepted or refused call does to the versions of a store. */
  datatype Event =
    | Inserted(id: UUID)
    | Updated(id: UUID, expected: int)
    | Removed(id: UUID)
    | Unchanged

  function Apply(v: map<UUID, int>, e: Event): map<UUID, int> {
    match e
    case Inserted(id) => v[id := 1]
    case Updated(id, expected) => v[id := expected + 1]
    case Removed(id) => v - {id}
    case Unchanged => v
  }

  /** An update is only accepted against the current version. */
  predicate Legal(v: map<UUID, int>, e: Event) {
    match e
    case Inserted(id) => id !in v
    case Updated(id, expected) => id in v && v[id] == expected
    case Removed(_) => true
    case Unchanged => true
  }

  function Final(es: seq<Event>): map<UUID, int> {
    if es == [] then map[] else Apply(Final(es[..|es| - 1]), es[|es| - 1])
  }

  predicate Chained(es: seq<Event>) {
    es == [] || (Chained(es[..|es| - 1]) && Legal(Final(es[..|es| - 1]), es[|es| - 1]))
  }

  /** No id is inserted twice. */
  predicate Fresh(es: seq<Event>) {
    forall i, j | 0 <= i < j < |es| && es[i].Inserted? && es[j].Inserted? :: es[i].id != es[j].id
  }

  /** The expected versions of the accepted updates of one entity, in order. */
  function Expected(es: seq<Event>, id: UUID): seq<int> {
    if es == [] then []
    else
      var e := es[|es| - 1];
      Expected(es[..|es| - 1], id) + if e.Updated? && e.id == id then [e.expected] else []
  }

  predicate NeverInserted(es: seq<Event>, id: UUID) {
    forall i | 0 <= i < |es| :: es[i].Inserted? ==> es[i].id != id
  }

  /** The accepted updates of an entity expect the versions 1, 2, 3, ..., and the current version is one
      more than their number. */
  lemma {:induction false} ChainOfVersions(es: seq<Event>, id: UUID)
    requires Chained(es) && Fresh(es)
    ensures var x := Expected(es, id);
            && (forall k | 0 <= k < |x| :: x[k] == k + 1)
            && (id in Final(es) ==> Final(es)[id] == |x| + 1)
            && (NeverInserted(es, id) ==> x == [] && id !in Final(es))
  {
    if es != [] {
      hide Chained, Fresh, NeverInserted;
      ChainUnfolds(es);
      var n := |es| - 1;
      var front, e := es[..n], es[n];
      ChainOfVersions(front, id);
      InsertionsOfFront(es, id);
      var x, xf := Expected(es, id), Expected(front, id);
      if e.Updated? && e.id == id {
        assert Legal(Final(front), e) && e.expected == |xf| + 1;
        assert x == xf + [e.expected];
      } else {
        assert x == xf;
      }
    } else {
      assert Expected(es, id) == [] && Final(es) == map[];
    }
  }

  lemma InsertionsOfFront(es: seq<Event>, id: UUID)
    requires es != [] && Fresh(es)
    ensures var n := |es| - 1;
            && (NeverInserted(es, id) ==> NeverInserted(es[..n], id) && !(es[n].Inserted? && es[n].id == id))
            && (es[n].Inserted? && es[n].id == id ==> NeverInserted(es[..n], id))
  {
  }

  lemma ChainUnfolds(es: seq<Event>)
    requires es != [] && Chained(es) && Fresh(es)
    ensures Chained(es[..|es| - 1]) && Fresh(es[..|es| - 1]) && Legal(Final(es[..|es| - 1]), es[|es| - 1])
  {
    hide Final, Legal;
  }

  lemma {:induction false} ChainPrefix(es: seq<Event>, i: nat)
    requires Chained(es) && Fresh(es) && i < |es|
    ensures Chained(es[..i]) && Fresh(es[..i]) && Legal(Final(es[..i]), es[i])
  {
    hide Final, Legal, Fresh;
    ChainUnfolds(es);
    var n := |es| - 1;
    if i < n {
      ChainPrefix(es[..n], i);
      assert es[..n][..i] == es[..i];
    }
  }

  /** Of all writers that read the same version of an entity, at most one succeeds: a later accepted
      update always expects a higher version. */
  lemma OneWriterPerVersion(es: seq<Event>, i: nat, j: nat)
    requires Chained(es) && Fresh(es) && i < j < |es|
    requires es[i].Updated? && es[j].Updated? && es[i].id == es[j].id
    ensures es[i].expected < es[j].expected
  {
    hide Chained, Fresh, Final, Expected;
    ChainPrefix(es, i);
    ChainPrefix(es, j);
    ChainOfVersions(es[..i], es[i].id);
    ChainOfVersions(es[..j], es[i].id);
    MoreUpdates(es, es[i].id, i, j);
  }

  lemma {:induction false} MoreUpdates(es: seq<Event>, id: UUID, i: nat, j: nat)
    requires i < j <= |es| && es[i].Updated? && es[i].id == id
    ensures |Expected(es[..i], id)| < |Expected(es[..j], id)|
  {
    assert es[..j][..j - 1] == es[..j - 1];
    if i < j - 1 {
      MoreUpdates(es, id, i, j - 1);
    }
  }

  /** An insertion with a new id is always legal, so a run only has to justify its updates. */
  lemma ExtendChain(es: seq<Event>, e: Event)
    requires Chained(es) && Fresh(es + [e])
    requires !e.Inserted? ==> Legal(Final(es), e)
    ensures Chained(es + [e]) && Final(es + [e]) == Apply(Final(es), e)
  {
    assert (es + [e])[..|es|] == es;
    if e.Inserted? {
      assert Fresh(es) && NeverInserted(es, e.id) by {
        forall i, j | 0 <= i < j < |es| && es[i].Inserted? && es[j].Inserted? ensures es[i].id != es[j].id {
          assert (es + [e])[i] == es[i] && (es + [e])[j] == es[j];
        }
        forall i | 0 <= i < |es| ensures es[i].Inserted? ==> es[i].id != e.id {
          assert (es + [e])[i] == es[i] && (es + [e])[|es|] == e;
        }
      }
      ChainOfVersions(es, e.id);
    }
  }

  // ---------- The three stores ----------

  function VersionsOf<T>(records: map<UUID, T>, version: T -> int): map<UUID, int> {
    map id | id in records :: version(records[id])
  }

  lemma VersionsChange<T>(m: map<UUID, T>, n: map<UUID, T>, version: T -> int)
    ensures forall id :: n == m - {id} ==> VersionsOf(n, version) == VersionsOf(m, version) - {id}
    ensures forall id <- n :: n == m[id := n[id]] ==>
              VersionsOf(n, version) == VersionsOf(m, version)[id := version(n[id])]
    ensures forall id <- m :: id in VersionsOf(m, version) && VersionsOf(m, version)[id] == version(m[id])
  {
  }

  function AccountVersions(s: Accounts.Store): map<UUID, int> {
    VersionsOf(s.byID, (x: Accounts.Account) => x.version)
  }

  function AccountEvent(s: Accounts.Store, op: Accounts.Op): (e: Event)
    ensures e.Inserted? ==> op.Creation? && e.id == op.newId
  {
    if !Accounts.Step(s, op).1 then Unchanged
    else match op
      case Creation(_, _, _, id) => Inserted(id)
      case Renaming(id, _, expected, _) => Updated(id, expected)
      case Rebalancing(id, _, expected, _) => Updated(id, expected)
      case Deactivation(id) => Removed(id)
  }

  function AccountEvents(ops: seq<Accounts.Op>): (es: seq<Event>)
    ensures |es| == |ops|
    ensures forall i | 0 <= i < |es| :: es[i].Inserted? ==> ops[i].Creation? && es[i].id == ops[i].newId
  {
    if ops == [] then []
    else
      var n := |ops| - 1;
      hide AccountEvent, Accounts.Run, Accounts.Step;
      AccountEvents(ops[..n]) + [AccountEvent(Accounts.Run(ops[..n]), ops[n])]
  }

  lemma AccountStep(s: Accounts.Store, op: Accounts.Op)
    ensures AccountVersions(Accounts.Step(s, op).0) == Apply(AccountVersions(s), AccountEvent(s, op))
    ensures !AccountEvent(s, op).Inserted? ==> Legal(AccountVersions(s), AccountEvent(s, op))
  {
    hide Accounts.NameKey, Accounts.KeyOf, VersionsOf;
    var before, after := s.byID, Accounts.Step(s, op).0.byID;
    match AccountEvent(s, op) {
      case Unchanged => assert after == before;
      case Removed(id) => assert after == before - {id};
      case Inserted(id) => assert after == before[id := after[id]];
      case Updated(id, _) => assert after == before[id := after[id]];
    }
    VersionsChange(before, after, (x: Accounts.Account) => x.version);
  }

  function HouseholdVersions(s: Households.Store): map<UUID, int> {
    VersionsOf(s.byID, (x: Households.Household) => x.version)
  }

  function HouseholdEvent(s: Households.Store, op: Households.Op): (e: Event)
    ensures e.Inserted? ==> op.Create? && e.id == op.newId
  {
    if Households.Step(s, op).1.Some? then Unchanged
    else match op
      case Create(_, _, id) => Inserted(id)
      case Rename(id, _, expected, _) => Updated(id, expected)
      case Deactivate(id, _) => Removed(id)
      case _ => Unchanged
  }

  function HouseholdEvents(ops: seq<Households.Op>): (es: seq<Event>)
    ensures |es| == |ops|
    ensures forall i | 0 <= i < |es| :: es[i].Inserted? ==> ops[i].Create? && es[i].id == ops[i].newId
  {
    if ops == [] then []
    else
      var n := |ops| - 1;
      hide HouseholdEvent, Households.Run, Households.Step;
      HouseholdEvents(ops[..n]) + [HouseholdEvent(Households.Run(ops[..n]), ops[n])]
  }

  lemma HouseholdStep(s: Households.Store, op: Households.Op)
    ensures HouseholdVersions(Households.Step(s, op).0) == Apply(HouseholdVersions(s), HouseholdEvent(s, op))
    ensures !HouseholdEvent(s, op).Inserted? ==> Legal(HouseholdVersions(s), HouseholdEvent(s, op))
  {
    hide Households.IsAdmin, Households.ActiveAdmins, Households.ValidName, VersionsOf;
    var before, after := s.byID, Households.Step(s, op).0.byID;
    match HouseholdEvent(s, op) {
      case Unchanged => assert after == before;
      case Removed(id) => assert after == before - {id};
      case Inserted(id) => assert after == before[id := after[id]];
      case Updated(id, _) => assert after == before[id := after[id]];
    }
    VersionsChange(before, after, (x: Households.Household) => x.version);
  }

  function UserVersions(s: Users.Store): map<UUID, int> {
    VersionsOf(s.byID, (x: Users.User) => x.version)
  }

  function UserEvent(s: Users.System, op: Users.Op): (e: Event)
    ensures e.Inserted? ==> op.Register? && e.id == op.newId
  {
    if !Users.Step(s, op).1 then Unchanged
    else match op
      case Register(_, _, _, _, id) => Inserted(id)
      case UpdateProfile(id, _, expected, _) => Updated(id, expected)
      case ChangePassword(id, _, _, expected, _) => Updated(id, expected)
      case Deactivate(id) => Removed(id)
      case Login(_, _, _, _, _) => Unchanged
  }

  function UserEvents(ops: seq<Users.Op>): (es: seq<Event>)
    ensures |es| == |ops|
    ensures forall i | 0 <= i < |es| :: es[i].Inserted? ==> ops[i].Register? && es[i].id == ops[i].newId
  {
    if ops == [] then []
    else
      var n := |ops| - 1;
      hide UserEvent, Users.Run, Users.Step;
      UserEvents(ops[..n]) + [UserEvent(Users.Run(ops[..n]), ops[n])]
  }

  lemma UserStep(s: Users.System, op: Users.Op)
    ensures UserVersions(Users.Step(s, op).0.users) == Apply(UserVersions(s.users), UserEvent(s, op))
    ensures !UserEvent(s, op).Inserted? ==> Legal(UserVersions(s.users), UserEvent(s, op))
  {
    hide Users.Hash, Users.Verify, Users.TokenText, Users.FindByEmail, Users.ValidDisplayName;
    hide GoText.ToLower, VersionsOf;
    var before, after := s.users.byID, Users.Step(s, op).0.users.byID;
    match UserEvent(s, op) {
      case Unchanged => assert after == before;
      case Removed(id) => assert after == before - {id};
      case Inserted(id) => assert after == before[id := after[id]];
      case Updated(id, _) => assert after == before[id := after[id]];
    }
    VersionsChange(before, after, (x: Users.User) => x.version);
  }

  /** In every run the versions of all accounts form chains. */
  lemma {:induction false} AccountChain(ops: seq<Accounts.Op>)
    requires Accounts.FreshIds(ops)
    ensures Chained(AccountEvents(ops)) && Fresh(AccountEvents(ops))
    ensures Final(AccountEvents(ops)) == AccountVersions(Accounts.Run(ops))
  {
    hide Accounts.Step, AccountEvent, AccountVersions, Chained, Apply, Legal, Final;
    if ops == [] {
      NothingYet();
    } else {
      var n := |ops| - 1;
      AccountChain(ops[..n]);
      AccountStep(Accounts.Run(ops[..n]), ops[n]);
      assert Fresh(AccountEvents(ops));
      ExtendChain(AccountEvents(ops[..n]), AccountEvent(Accounts.Run(ops[..n]), ops[n]));
    }
  }

  /** In every run the versions of all households form chains. */
  lemma {:induction false} HouseholdChain(ops: seq<Households.Op>)
    requires Households.FreshIds(ops)
    ensures Chained(HouseholdEvents(ops)) && Fresh(HouseholdEvents(ops))
    ensures Final(HouseholdEvents(ops)) == HouseholdVersions(Households.Run(ops))
  {
    hide Households.Step, HouseholdEvent, HouseholdVersions, Chained, Apply, Legal, Final;
    if ops == [] {
      NothingYet();
    } else {
      var n := |ops| - 1;
      HouseholdChain(ops[..n]);
      HouseholdStep(Households.Run(ops[..n]), ops[n]);
      assert Fresh(HouseholdEvents(ops));
      ExtendChain(HouseholdEvents(ops[..n]), HouseholdEvent(Households.Run(ops[..n]), ops[n]));
    }
  }

  /** In every run the versions of all users form chains. */
  lemma {:induction false} UserChain(ops: seq<Users.Op>)
    requires Users.FreshIds(ops)
    ensures Chained(UserEvents(ops)) && Fresh(UserEvents(ops))
    ensures Final(UserEvents(ops)) == UserVersions(Users.Run(ops).users)
  {
    hide Users.Step, UserEvent, UserVersions, Chained, Apply, Legal, Final;
    if ops == [] {
      NothingYet();
    } else {
      var n := |ops| - 1;
      UserChain(ops[..n]);
      UserStep(Users.Run(ops[..n]), ops[n]);
      assert Fresh(UserEvents(ops));
      ExtendChain(UserEvents(ops[..n]), UserEvent(Users.Run(ops[..n]), ops[n]));
    }
  }

  lemma NothingYet()
    ensures Chained([]) && Final([]) == map[]
    ensures AccountVersions(Accounts.EMPTY) == map[] && HouseholdVersions(Households.EMPTY) == map[]
    ensures UserVersions(Users.EMPTY.users) == map[]
  {
  }
}
