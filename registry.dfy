/**
 * The values the notification pipe of notificationpipe.js works on, and the
 * specification of its registry: the notifier table (publisher address to
 * subscriber set), the table of registrations per user, the invariant the
 * pipe keeps, and the parsing of wire messages and publisher lists.
 */
module Registry {
  import opened Wrappers
  import opened Text

  /** A recipient identity, used both as routing key and as ZeroMQ subscription filter. */
  type User = string
  /** A publisher endpoint address. */
  type Address = string

  /** The closure a caller registered; only its identity matters to the pipe. */
  datatype Callback = Callback(id: nat)

  /** A registration entry `{user, callback}`; the caller holds it as its handle and indexOf compares it by reference. */
  class Registration {
    const user: User
    const callback: Callback

    constructor (user: User, callback: Callback)
      ensures this.user == user && this.callback == callback
    {
      this.user := user;
      this.callback := callback;
    }
  }

  /** `notifiers`: each known publisher address with its `subscribers` set. */
  type Notifiers = map<Address, set<User>>
  /** `registeredUsers`: each user with its registrations, oldest first. */
  type Registrations = map<User, seq<Registration>>

  /**
   * The filter table of the shared subscriber socket that listens to every
   * publisher: ZeroMQ counts the subscriptions of each filter, and an
   * unsubscribe removes one of them, or nothing when none is left.
   */
  type Filters = multiset<User>

  /** `k` less `d`, stopping at zero: a filter's count after `d` unsubscribes. */
  function Drop(k: nat, d: nat): (r: nat)
    ensures r + d >= k && r <= k
    ensures r == 0 || r + d == k
  {
    if k >= d then k - d else 0
  }

  /** The registrations of `u`, empty when `u` is not registered. */
  function Listeners(ru: Registrations, u: User): seq<Registration>
  {
    if u in ru then ru[u] else []
  }

  /** No registration appears twice in `l`. */
  ghost predicate Distinct(l: seq<Registration>)
  {
    forall i, j :: 0 <= i < j < |l| ==> l[i] != l[j]
  }

  /** The notifiers whose subscriber set lacks `u`: the ones both subscribe loops act on. */
  function Lacking(n: Notifiers, u: User): (r: set<Address>)
    ensures forall a :: a in r <==> a in n && u !in n[a]
  {
    set a | a in n && u !in n[a]
  }

  /** The notifiers whose subscriber set holds `u`. */
  function Holding(n: Notifiers, u: User): (r: set<Address>)
    ensures forall a :: a in r <==> a in n && u in n[a]
  {
    set a | a in n && u in n[a]
  }

  /** Every notifier with `u` added to its subscribers. */
  function SubscribeEverywhere(n: Notifiers, u: User): (r: Notifiers)
    ensures r.Keys == n.Keys
    ensures forall a :: a in r ==> r[a] == n[a] + {u}
  {
    map a | a in n :: n[a] + {u}
  }

  /** Every notifier with `u` removed from its subscribers. */
  function UnsubscribeEverywhere(n: Notifiers, u: User): (r: Notifiers)
    ensures r.Keys == n.Keys
    ensures forall a :: a in r ==> r[a] == n[a] - {u}
  {
    map a | a in n :: n[a] - {u}
  }

  /** The registrations after `register(u, h)`: `h` appended to `u`'s list, which is created if needed. */
  function RegisterSpec(ru: Registrations, u: User, h: Registration): (r: Registrations)
    ensures r.Keys == ru.Keys + {u}
    ensures r[u] == Listeners(ru, u) + [h]
    ensures forall v :: v in ru && v != u ==> r[v] == ru[v]
  {
    ru[u := Listeners(ru, u) + [h]]
  }

  /** register's two steps, creating an empty list when needed and then pushing `h`, reach RegisterSpec. */
  lemma RegisterSpecSteps(ru: Registrations, u: User, h: Registration)
    ensures var created := if u in ru then ru else ru[u := []];
            created[u := created[u] + [h]] == RegisterSpec(ru, u, h)
  {
  }

  /** The notifiers after `register(u, h)`: a first registration subscribes `u` everywhere. */
  function RegisterNotifiers(n: Notifiers, ru: Registrations, u: User): (r: Notifiers)
    ensures r.Keys == n.Keys
    ensures u in ru ==> r == n
    ensures forall a :: a in r ==> n[a] <= r[a] && r[a] - {u} == n[a] - {u}
    ensures u !in ru ==> forall a :: a in r ==> u in r[a]
  {
    if u in ru then n else SubscribeEverywhere(n, u)
  }

  /** The socket's filter table after `register(u, h)`: a first registration leaves one subscription of `u` per notifier. */
  function RegisterFilters(n: Notifiers, ru: Registrations, f: Filters, u: User): (r: Filters)
    ensures u in ru ==> r == f
    ensures u !in ru ==> r[u] == |n.Keys|
    ensures forall v :: v != u ==> r[v] == f[v]
  {
    if u in ru then f else f[u := |n.Keys|]
  }

  /** `l` without its element at position `i` (Array.prototype.splice(i, 1)). */
  function RemoveAt(l: seq<Registration>, i: nat): (r: seq<Registration>)
    requires i < |l|
    ensures |r| == |l| - 1
    ensures forall k :: 0 <= k < i ==> r[k] == l[k]
    ensures forall k :: i <= k < |r| ==> r[k] == l[k + 1]
  {
    l[..i] + l[i + 1..]
  }

  /** `l` after `indexOf(h)` and, when `h` was found, `splice(position, 1)`: one occurrence of `h` fewer. */
  function SpliceOut(l: seq<Registration>, h: Registration): (r: seq<Registration>)
    ensures h !in l ==> r == l
    ensures h in l ==> |r| == |l| - 1 && multiset(r) + multiset{h} == multiset(l)
  {
    var position := IndexOf(l, h);
    if position >= 0 then
      assert l == l[..position] + [h] + l[position + 1..];
      RemoveAt(l, position)
    else l
  }

  /**
   * The registrations after `unregister(u, h)`: the first occurrence of `h`
   * leaves `u`'s list, and an emptied list is deleted.
   */
  function UnregisterSpec(ru: Registrations, u: User, h: Registration): (r: Registrations)
    ensures u !in ru ==> r == ru
    ensures forall v :: v in r <==> v in ru && (v == u ==> |SpliceOut(ru[u], h)| > 0)
    ensures forall v :: v in r ==> r[v] == if v == u then SpliceOut(ru[u], h) else ru[v]
  {
    if u !in ru then ru
    else
      var rest := SpliceOut(ru[u], h);
      if |rest| == 0 then
        assert forall v :: v in ru && v != u ==> v in ru - {u} && (ru - {u})[v] == ru[v];
        ru - {u}
      else ru[u := rest]
  }

  /**
   * unregister's steps, splicing `h` out of `u`'s list when it is there and
   * then deleting an emptied list, reach UnregisterSpec; `u` stays registered
   * exactly when its list is not emptied.
   */
  lemma UnregisterSpecSteps(ru: Registrations, u: User, h: Registration)
    requires u in ru
    ensures IndexOf(ru[u], h) < 0 ==> ru[u := SpliceOut(ru[u], h)] == ru
    ensures |SpliceOut(ru[u], h)| == 0 ==>
              && UnregisterSpec(ru, u, h) == ru[u := SpliceOut(ru[u], h)] - {u}
              && u !in UnregisterSpec(ru, u, h)
    ensures |SpliceOut(ru[u], h)| != 0 ==>
              && UnregisterSpec(ru, u, h) == ru[u := SpliceOut(ru[u], h)]
              && u in UnregisterSpec(ru, u, h)
  {
    if IndexOf(ru[u], h) < 0 {
      assert ru[u := ru[u]] == ru;
    }
    if |SpliceOut(ru[u], h)| == 0 {
      assert ru[u := SpliceOut(ru[u], h)] - {u} == ru - {u};
    }
  }

  /** The notifiers after `addPublisher(a)`: a new address gets a notifier subscribed to every registered user. */
  function AddPublisherSpec(n: Notifiers, ru: Registrations, a: Address): (r: Notifiers)
    ensures a in n ==> r == n
    ensures a !in n ==> r.Keys == n.Keys + {a} && r[a] == ru.Keys
    ensures forall b :: b in n ==> b in r && r[b] == n[b]
  {
    if a in n then n else n[a := ru.Keys]
  }

  /**
   * What the pipe keeps true between events: no user keeps an empty list, no
   * handle is listed twice, and every registered user is a subscriber of every
   * notifier.
   */
  ghost predicate Inv(n: Notifiers, ru: Registrations)
  {
    && (forall u :: u in ru ==> |ru[u]| > 0 && Distinct(ru[u]))
    && (forall u, a :: u in ru && a in n ==> u in n[a])
  }

  /** The equivalence the comment at unregister intends: a user is a subscriber of a notifier exactly when it is registered. */
  ghost predicate Exact(n: Notifiers, ru: Registrations)
  {
    forall u, a :: a in n ==> (u in n[a] <==> u in ru)
  }

  /** No notifier loses a subscriber, and none disappears. */
  ghost predicate Grows(n0: Notifiers, n1: Notifiers)
  {
    forall a :: a in n0 ==> a in n1 && n0[a] <= n1[a]
  }

  /** The socket's filter table counts each user once for every notifier that lists it as a subscriber. */
  ghost predicate Counted(n: Notifiers, f: Filters)
  {
    forall u :: f[u] == |Holding(n, u)|
  }

  /** Every notifier either holds or lacks `u`. */
  lemma HoldingLackingSplit(n: Notifiers, u: User)
    ensures |Holding(n, u)| + |Lacking(n, u)| == |n.Keys|
  {
    assert Holding(n, u) + Lacking(n, u) == n.Keys;
    assert Holding(n, u) * Lacking(n, u) == {};
  }

  /** Subscribing `u` once per notifier that lacks it keeps the filter table counted. */
  lemma SubscribeEverywhereKeepsCounted(n: Notifiers, f: Filters, u: User)
    requires Counted(n, f)
    ensures f[u] + |Lacking(n, u)| == |n.Keys|
    ensures Counted(SubscribeEverywhere(n, u), f[u := f[u] + |Lacking(n, u)|])
  {
    HoldingLackingSplit(n, u);
    var n' := SubscribeEverywhere(n, u);
    var f' := f[u := f[u] + |Lacking(n, u)|];
    forall v ensures f'[v] == |Holding(n', v)| {
      if v == u {
        assert Holding(n', u) == n.Keys;
        HoldingLackingSplit(n, u);
      } else {
        assert Holding(n', v) == Holding(n, v);
      }
    }
  }

  /** The first registration of `u` leaves the filter table counting `u` once per notifier; a later one changes nothing. */
  lemma RegisterKeepsCounted(n: Notifiers, ru: Registrations, f: Filters, u: User)
    requires Counted(n, f)
    ensures Counted(RegisterNotifiers(n, ru, u), RegisterFilters(n, ru, f, u))
    ensures f[u] + |Lacking(n, u)| == |n.Keys|
  {
    SubscribeEverywhereKeepsCounted(n, f, u);
  }

  /** Unsubscribing `u` once per notifier that holds it keeps the filter table counted, and leaves no filter for `u`. */
  lemma UnsubscribeEverywhereKeepsCounted(n: Notifiers, f: Filters, u: User)
    requires Counted(n, f)
    ensures Drop(f[u], |Holding(n, u)|) == 0
    ensures Counted(UnsubscribeEverywhere(n, u), f[u := Drop(f[u], |Holding(n, u)|)])
  {
    var n' := UnsubscribeEverywhere(n, u);
    var f' := f[u := 0];
    forall v ensures f'[v] == |Holding(n', v)| {
      if v == u {
        assert Holding(n', u) == {};
      } else {
        assert Holding(n', v) == Holding(n, v);
      }
    }
  }

  /** A new notifier subscribes every registered user once more; a known address changes nothing. */
  lemma AddPublisherKeepsCounted(n: Notifiers, ru: Registrations, f: Filters, a: Address)
    requires Counted(n, f)
    ensures Counted(AddPublisherSpec(n, ru, a), if a in n then f else f + multiset(ru.Keys))
  {
    if a !in n {
      var n' := AddPublisherSpec(n, ru, a);
      var f' := f + multiset(ru.Keys);
      forall v ensures f'[v] == |Holding(n', v)| {
        HoldingAfterAdd(n, ru, a, v);
      }
    }
  }

  /** A new notifier holding the registered users adds itself to exactly their holding sets. */
  lemma HoldingAfterAdd(n: Notifiers, ru: Registrations, a: Address, v: User)
    requires a !in n
    ensures |Holding(AddPublisherSpec(n, ru, a), v)| == |Holding(n, v)| + (if v in ru then 1 else 0)
  {
    var n' := n[a := ru.Keys];
    if v in ru {
      assert Holding(n', v) == Holding(n, v) + {a};
    } else {
      assert Holding(n', v) == Holding(n, v);
    }
  }

  /**
   * With the equivalence and a counted filter table, the socket holds a
   * filter for a user exactly when the user is registered (given at least
   * one notifier).
   */
  lemma ExactFiltersIffRegistered(n: Notifiers, ru: Registrations, f: Filters, u: User)
    requires Exact(n, ru) && Counted(n, f) && n != map[]
    ensures f[u] > 0 <==> u in ru
  {
    var a :| a in n;
    if u in ru {
      assert a in Holding(n, u);
    } else {
      assert Holding(n, u) == {};
    }
  }

  /** Under the invariant a registered user lacks no notifier, so the unsubscribe loop as written finds nothing to do. */
  lemma RegisteredLacksNothing(n: Notifiers, ru: Registrations, u: User)
    requires Inv(n, ru) && u in ru
    ensures Lacking(n, u) == {}
  {
  }

  /** Splicing out a handle that was pushed onto a list without it gives the list back. */
  lemma SpliceOutPushed(l: seq<Registration>, h: Registration)
    requires h !in l
    ensures SpliceOut(l + [h], h) == l
  {
    IndexOfAfterFreePrefix(l, h, []);
    assert l + [h] + [] == l + [h];
    assert (l + [h])[..|l|] == l;
  }

  /** A fresh handle registered and then unregistered leaves the registrations as they were. */
  lemma RegisterUnregisterRestores(ru: Registrations, u: User, h: Registration)
    requires u in ru ==> ru[u] != []
    requires h !in Listeners(ru, u)
    ensures UnregisterSpec(RegisterSpec(ru, u, h), u, h) == ru
  {
    var l := Listeners(ru, u);
    var r := RegisterSpec(ru, u, h);
    SpliceOutPushed(l, h);
    if l == [] {
      assert r - {u} == ru;
    } else {
      assert r[u := l] == ru;
    }
  }

  /** Removing one entry keeps a list free of repeats. */
  lemma RemoveAtKeepsDistinct(l: seq<Registration>, i: nat)
    requires i < |l| && Distinct(l)
    ensures Distinct(RemoveAt(l, i))
  {
    var r := RemoveAt(l, i);
    forall p, q | 0 <= p < q < |r| ensures r[p] != r[q] {
      var p' := if p < i then p else p + 1;
      var q' := if q < i then q else q + 1;
      assert r[p] == l[p'] && r[q] == l[q'];
    }
  }

  /** register keeps the invariant, given a handle that is in no list yet. */
  lemma RegisterKeepsInv(n: Notifiers, ru: Registrations, u: User, h: Registration)
    requires Inv(n, ru)
    requires h !in Listeners(ru, u)
    ensures Inv(RegisterNotifiers(n, ru, u), RegisterSpec(ru, u, h))
    ensures Grows(n, RegisterNotifiers(n, ru, u))
  {
    var r := RegisterSpec(ru, u, h);
    var l := Listeners(ru, u);
    assert Distinct(r[u]) by {
      forall i, j | 0 <= i < j < |r[u]| ensures r[u][i] != r[u][j] {
        if j == |l| { assert r[u][j] == h && r[u][i] == l[i]; }
      }
    }
  }

  /** Splicing a handle out keeps a list free of repeats. */
  lemma SpliceOutKeepsDistinct(l: seq<Registration>, h: Registration)
    requires Distinct(l)
    ensures Distinct(SpliceOut(l, h))
  {
    var position := IndexOf(l, h);
    if position >= 0 {
      RemoveAtKeepsDistinct(l, position);
    }
  }

  /** unregister as written keeps the invariant, although it never touches a notifier. */
  lemma UnregisterKeepsInv(n: Notifiers, ru: Registrations, u: User, h: Registration)
    requires Inv(n, ru)
    ensures Inv(n, UnregisterSpec(ru, u, h))
  {
    if u in ru {
      var rest := SpliceOut(ru[u], h);
      SpliceOutKeepsDistinct(ru[u], h);
      if |rest| == 0 {
        ShrunkKeepsInv(n, ru, ru - {u});
      } else {
        ShrunkKeepsInv(n, ru, ru[u := rest]);
      }
    }
  }

  /** Dropping users, or replacing a list by a non-empty list without repeats, keeps the invariant. */
  lemma ShrunkKeepsInv(n: Notifiers, ru: Registrations, r: Registrations)
    requires Inv(n, ru)
    requires r.Keys <= ru.Keys
    requires forall v :: v in r ==> |r[v]| > 0 && Distinct(r[v])
    ensures Inv(n, r)
  {
  }

  /** addPublisher keeps the invariant: the new notifier starts subscribed to every registered user. */
  lemma AddPublisherKeepsInv(n: Notifiers, ru: Registrations, a: Address)
    requires Inv(n, ru)
    ensures Inv(AddPublisherSpec(n, ru, a), ru)
    ensures Grows(n, AddPublisherSpec(n, ru, a))
  {
  }

  /** Adding a known address changes nothing; adding the same address twice is adding it once. */
  lemma AddPublisherIdempotent(n: Notifiers, ru: Registrations, a: Address)
    ensures a in n ==> AddPublisherSpec(n, ru, a) == n
    ensures AddPublisherSpec(AddPublisherSpec(n, ru, a), ru, a) == AddPublisherSpec(n, ru, a)
    ensures a !in n ==> AddPublisherSpec(n, ru, a).Keys == n.Keys + {a}
  {
  }

  /** Once the last registration of a user is gone, the unchanged notifiers still list it: the equivalence is lost. */
  lemma UnregisterAsWrittenBreaksExact(n: Notifiers, ru: Registrations, u: User, h: Registration, a: Address)
    requires Inv(n, ru)
    requires u in ru && ru[u] == [h] && a in n
    ensures u !in UnregisterSpec(ru, u, h) && u in n[a]
    ensures !Exact(n, UnregisterSpec(ru, u, h))
  {
    assert IndexOf(ru[u], h) == 0;
    assert u in n[a];
  }

  /** Once the last registration of a user is gone, the socket still holds a filter for it: its messages keep arriving. */
  lemma UnregisterAsWrittenLeavesFilter(n: Notifiers, ru: Registrations, f: Filters, u: User, h: Registration, a: Address)
    requires Inv(n, ru) && Counted(n, f)
    requires u in ru && ru[u] == [h] && a in n
    ensures u !in UnregisterSpec(ru, u, h) && f[u] > 0
  {
    assert IndexOf(ru[u], h) == 0;
    assert a in Holding(n, u);
  }

  /** register keeps the equivalence of subscribers and registered users. */
  lemma RegisterKeepsExact(n: Notifiers, ru: Registrations, u: User, h: Registration)
    requires Exact(n, ru)
    ensures Exact(RegisterNotifiers(n, ru, u), RegisterSpec(ru, u, h))
  {
  }

  /** addPublisher keeps the equivalence of subscribers and registered users. */
  lemma AddPublisherKeepsExact(n: Notifiers, ru: Registrations, a: Address)
    requires Exact(n, ru)
    ensures Exact(AddPublisherSpec(n, ru, a), ru)
  {
  }

  /** The notifiers after the intended unregister: `u` leaves every subscriber set once its list is deleted. */
  function UnregisterIntendedSpec(n: Notifiers, ru: Registrations, u: User, h: Registration): (r: Notifiers)
    ensures r.Keys == n.Keys
    ensures forall a :: a in r ==> r[a] <= n[a] && r[a] - {u} == n[a] - {u}
    ensures u in ru && u !in UnregisterSpec(ru, u, h) ==> forall a :: a in r ==> u !in r[a]
    ensures !(u in ru && u !in UnregisterSpec(ru, u, h)) ==> r == n
  {
    if u in ru && u !in UnregisterSpec(ru, u, h) then UnsubscribeEverywhere(n, u) else n
  }

  /**
   * With the intended unregister, registering a fresh handle and unregistering
   * it again leaves no residual subscription: the notifiers are as before,
   * and a first registration's socket filter goes back to none.
   */
  lemma RegisterUnregisterIntendedRestores(n: Notifiers, ru: Registrations, f: Filters, u: User, h: Registration)
    requires Inv(n, ru) && Exact(n, ru) && Counted(n, f)
    requires h !in Listeners(ru, u)
    ensures UnregisterSpec(RegisterSpec(ru, u, h), u, h) == ru
    ensures UnregisterIntendedSpec(RegisterNotifiers(n, ru, u), RegisterSpec(ru, u, h), u, h) == n
    ensures u !in ru ==> RegisterFilters(n, ru, f, u)[u := 0] == f
  {
    RegisterUnregisterRestores(ru, u, h);
    if u !in ru {
      assert u in RegisterSpec(ru, u, h);
      SubscribeUnsubscribeAbsent(n, ru, u);
      FilterOfUnregistered(n, ru, f, u);
    }
  }

  /** Subscribing and then unsubscribing a user no notifier held gives the notifiers back. */
  lemma SubscribeUnsubscribeAbsent(n: Notifiers, ru: Registrations, u: User)
    requires Exact(n, ru) && u !in ru
    ensures UnsubscribeEverywhere(SubscribeEverywhere(n, u), u) == n
  {
    var r := UnsubscribeEverywhere(SubscribeEverywhere(n, u), u);
    forall a | a in n ensures r[a] == n[a] {
      assert u !in n[a];
    }
  }

  /** Under the equivalence an unregistered user has no filter, so resetting it to none after a first registration restores the table. */
  lemma FilterOfUnregistered(n: Notifiers, ru: Registrations, f: Filters, u: User)
    requires Exact(n, ru) && Counted(n, f) && u !in ru
    ensures f[u] == 0
    ensures RegisterFilters(n, ru, f, u)[u := 0] == f
  {
    assert Holding(n, u) == {};
  }

  /** The intended unregister keeps the invariant. */
  lemma UnregisterIntendedKeepsInv(n: Notifiers, ru: Registrations, u: User, h: Registration)
    requires Inv(n, ru)
    ensures Inv(UnregisterIntendedSpec(n, ru, u, h), UnregisterSpec(ru, u, h))
  {
    UnregisterKeepsInv(n, ru, u, h);
    var ru' := UnregisterSpec(ru, u, h);
    var n' := UnregisterIntendedSpec(n, ru, u, h);
    forall v, a | v in ru' && a in n' ensures v in n'[a] {
      assert v in ru;
      if n' != n {
        assert v != u && n'[a] == n[a] - {u};
      }
    }
  }

  /** The intended unregister keeps the equivalence of subscribers and registered users. */
  lemma UnregisterIntendedKeepsExact(n: Notifiers, ru: Registrations, u: User, h: Registration)
    requires Exact(n, ru)
    ensures Exact(UnregisterIntendedSpec(n, ru, u, h), UnregisterSpec(ru, u, h))
  {
    var ru' := UnregisterSpec(ru, u, h);
    assert forall v :: v in ru' ==> v in ru;
    assert forall v :: v in ru && v != u ==> v in ru';
  }

  /** `s` with `u` added, or with `u` removed. */
  function Toggle(s: set<User>, u: User, add: bool): set<User>
  {
    if add then s + {u} else s - {u}
  }

  /** The notifier table part-way through a loop over it: the notifiers still `pending` are untouched, the others toggled. */
  function ToggledExcept(n: Notifiers, u: User, add: bool, pending: set<Address>): (r: Notifiers)
    ensures r.Keys == n.Keys
  {
    map a | a in n :: if a in pending then n[a] else Toggle(n[a], u, add)
  }

  /** How many members of `s` a loop has passed grows by one exactly when the next element `a` is in `s`. */
  lemma CountStep(s: set<Address>, pending: set<Address>, a: Address)
    requires a in pending
    ensures |s - (pending - {a})| == |s - pending| + (if a in s then 1 else 0)
  {
    if a in s {
      assert s - (pending - {a}) == (s - pending) + {a};
    } else {
      assert s - (pending - {a}) == s - pending;
    }
  }

  /** The notifier table part-way through a subscribe or unsubscribe loop over `n0`. */
  ghost predicate NotifiersSoFar(n0: Notifiers, u: User, add: bool, pending: set<Address>, n: Notifiers)
  {
    pending <= n0.Keys && n == ToggledExcept(n0, u, add, pending)
  }

  /**
   * The filter table part-way through a loop over the notifiers: one
   * subscribe (`add`) or one unsubscribe of `u` for every member of `s` the
   * loop has passed.
   */
  ghost predicate FiltersSoFar(f0: Filters, u: User, add: bool, s: set<Address>, pending: set<Address>, f: Filters)
  {
    f == f0[u := if add then f0[u] + |s - pending| else Drop(f0[u], |s - pending|)]
  }

  /** Deleting `u` from a notifier that lacks it leaves the notifier table as it was. */
  lemma DeleteAbsent(n: Notifiers, a: Address, u: User)
    requires a in n && u !in n[a]
    ensures n[a := n[a] - {u}] == n
  {
    assert n[a] - {u} == n[a];
  }

  /** Before the loop no notifier is toggled. */
  lemma NotifiersLoopStart(n0: Notifiers, u: User, add: bool)
    ensures NotifiersSoFar(n0, u, add, n0.Keys, n0)
  {
    assert ToggledExcept(n0, u, add, n0.Keys) == n0;
  }

  /** After the loop every notifier is toggled. */
  lemma NotifiersLoopDone(n0: Notifiers, u: User, add: bool, n: Notifiers)
    requires NotifiersSoFar(n0, u, add, {}, n)
    ensures n == if add then SubscribeEverywhere(n0, u) else UnsubscribeEverywhere(n0, u)
  {
  }

  /**
   * One loop step at notifier `x`: the notifier moves out of `pending`,
   * toggled when `u`'s membership is the one the loop changes, untouched
   * otherwise.
   */
  lemma NotifiersLoopStep(n0: Notifiers, u: User, add: bool, pending: set<Address>, x: Address, n: Notifiers)
    requires x in pending && NotifiersSoFar(n0, u, add, pending, n)
    ensures x in n && x in n0 && (u in n[x] <==> u in n0[x])
    ensures (add <==> u !in n0[x]) ==> NotifiersSoFar(n0, u, add, pending - {x}, n[x := Toggle(n[x], u, add)])
    ensures (add <==> u in n0[x]) ==> NotifiersSoFar(n0, u, add, pending - {x}, n)
  {
    if add <==> u in n0[x] {
      assert Toggle(n0[x], u, add) == n0[x];
      assert ToggledExcept(n0, u, add, pending) == ToggledExcept(n0, u, add, pending - {x});
    } else {
      assert ToggledExcept(n0, u, add, pending)[x := Toggle(n0[x], u, add)] == ToggledExcept(n0, u, add, pending - {x});
    }
  }

  /** Before a loop over the notifiers no filter has changed. */
  lemma FiltersLoopStart(f0: Filters, u: User, add: bool, s: set<Address>, pending: set<Address>)
    requires s <= pending
    ensures FiltersSoFar(f0, u, add, s, pending, f0)
  {
    assert s - pending == {};
  }

  /** After the loop `u`'s filter count has moved once per member of `s`. */
  lemma FiltersLoopDone(f0: Filters, u: User, add: bool, s: set<Address>, f: Filters)
    requires FiltersSoFar(f0, u, add, s, {}, f)
    ensures f == f0[u := if add then f0[u] + |s| else Drop(f0[u], |s|)]
  {
    assert s - {} == s;
  }

  /** One loop step at notifier `x`: `u`'s filter count moves once exactly when `x` is in `s`. */
  lemma FiltersLoopStep(f0: Filters, u: User, add: bool, s: set<Address>, pending: set<Address>, x: Address, f: Filters)
    requires x in pending && FiltersSoFar(f0, u, add, s, pending, f)
    ensures x in s ==> FiltersSoFar(f0, u, add, s, pending - {x}, if add then f + multiset{u} else f - multiset{u})
    ensures x !in s ==> FiltersSoFar(f0, u, add, s, pending - {x}, f)
  {
    CountStep(s, pending, x);
  }

  /**
   * addPublisher's loop part-way: the new notifier `a` holds the registered
   * users already passed, each subscribed once on the socket.
   */
  ghost predicate FilledSoFar(n0: Notifiers, f0: Filters, ru: Registrations, a: Address,
                              pending: set<User>, n: Notifiers, f: Filters)
  {
    && pending <= ru.Keys
    && n == n0[a := ru.Keys - pending]
    && f == f0 + multiset(ru.Keys - pending)
  }

  /** The new notifier starts with no subscriber. */
  lemma FillStart(n0: Notifiers, f0: Filters, ru: Registrations, a: Address)
    ensures FilledSoFar(n0, f0, ru, a, ru.Keys, n0[a := {}], f0)
  {
    assert ru.Keys - ru.Keys == {};
  }

  /** Subscribing one more pending user on the new notifier moves it out of `pending`. */
  lemma FillStep(n0: Notifiers, f0: Filters, ru: Registrations, a: Address,
                 pending: set<User>, u: User, n: Notifiers, f: Filters)
    requires u in pending && FilledSoFar(n0, f0, ru, a, pending, n, f)
    ensures a in n
    ensures FilledSoFar(n0, f0, ru, a, pending - {u}, n[a := n[a] + {u}], f + multiset{u})
  {
    var done := ru.Keys - pending;
    assert ru.Keys - (pending - {u}) == done + {u};
    assert multiset(done + {u}) == multiset(done) + multiset{u};
  }

  /** Once no user is pending, the new notifier holds every registered user. */
  lemma FillDone(n0: Notifiers, f0: Filters, ru: Registrations, a: Address, n: Notifiers, f: Filters)
    requires FilledSoFar(n0, f0, ru, a, {}, n, f)
    ensures n == n0[a := ru.Keys] && f == f0 + multiset(ru.Keys)
  {
    assert ru.Keys - {} == ru.Keys;
  }

  /** The notifier table reached by addPublisher for one more string entry. */
  lemma AddedPublishersStep(n0: Notifiers, n1: Notifiers, ru: Registrations, entries: seq<Json>, processed: nat)
    requires AddedPublishers(n0, n1, ru, entries, processed)
    requires processed < |entries| && entries[processed].JString?
    ensures AddedPublishers(n0, AddPublisherSpec(n1, ru, entries[processed].s), ru, entries, processed + 1)
  {
    assert (set k | 0 <= k < processed + 1 && entries[k].JString? :: entries[k].s)
        == (set k | 0 <= k < processed && entries[k].JString? :: entries[k].s) + {entries[processed].s};
  }

  /** Split `<recipient>|<payload>` at the first '|'; no '|', or one in front, makes the message malformed. */
  function SplitWire(message: string): (r: Option<(User, string)>)
    ensures r.None? <==> '|' !in message || message[0] == '|'
    ensures r.Some? ==> r.value.0 != "" && '|' !in r.value.0
    ensures r.Some? ==> message == r.value.0 + "|" + r.value.1
  {
    var separation := IndexOf(message, '|');
    if separation <= 0 then None
    else
      assert message == message[..separation] + "|" + message[separation + 1..];
      Some((message[..separation], message[separation + 1..]))
  }

  /** A non-empty recipient without '|' and any payload split back into themselves. */
  lemma SplitWireRoundTrip(recipient: User, payload: string)
    requires recipient != "" && '|' !in recipient
    ensures SplitWire(recipient + "|" + payload) == Some((recipient, payload))
  {
    var m := recipient + "|" + payload;
    assert m == recipient + ['|'] + payload;
    IndexOfAfterFreePrefix(recipient, '|', payload);
    assert m[..|recipient|] == recipient;
    assert m[|recipient| + 1..] == payload;
  }

  /** A parsed JSON value; a parsed object lists its members in order, each name once. */
  datatype Json =
    | JNull
    | JBool(b: bool)
    | JNumber(n: real)
    | JString(s: string)
    | JArray(items: seq<Json>)
    | JObject(members: seq<(string, Json)>)

  /** The value of member `name` of an object's member list, if any. */
  function MemberOf(members: seq<(string, Json)>, name: string): Option<Json>
  {
    if members == [] then None
    else if members[0].0 == name then Some(members[0].1)
    else MemberOf(members[1..], name)
  }

  /** `j.length === 0` for a value other than null (whose `.length` throws). */
  predicate LengthIsZero(j: Json): (b: bool)
    requires !j.JNull?
    ensures j.JString? ==> (b <==> j.s == "")
    ensures j.JArray? ==> (b <==> j.items == [])
    ensures j.JBool? || j.JNumber? ==> !b
  {
    match j
    case JString(s) => s == ""
    case JArray(items) => items == []
    case JObject(members) => MemberOf(members, "length") == Some(JNumber(0.0))
    case _ => false
  }

  /** The values `for (x in j) ... j[x]` visits: array elements, the characters of a string, object member values. */
  function ForInValues(j: Json): (r: seq<Json>)
    ensures j.JArray? ==> r == j.items
    ensures j.JString? ==> |r| == |j.s| && forall k :: 0 <= k < |r| ==> r[k] == JString([j.s[k]])
    ensures j.JNull? || j.JBool? || j.JNumber? ==> r == []
  {
    match j
    case JArray(items) => items
    case JString(s) => seq(|s|, k requires 0 <= k < |s| => JString([s[k]]))
    case JObject(members) => seq(|members|, k requires 0 <= k < |members| => members[k].1)
    case _ => []
  }

  /**
   * The directory reply handler's classification: a reply that does not
   * parse, parses to null (whose `.length` throws inside the try), or has
   * length 0 becomes null; anything else is kept as parsed.
   */
  function ClassifyDirectoryReply(reply: string, parse: string -> Option<Json>): (r: Option<Json>)
    ensures parse(reply).None? ==> r.None?
    ensures parse(reply) == Some(JNull) ==> r.None?
    ensures parse(reply) == Some(JArray([])) ==> r.None?
    ensures r.Some? ==> r == parse(reply) && !r.value.JNull? && !LengthIsZero(r.value)
    ensures parse(reply).Some? && !parse(reply).value.JNull? && !LengthIsZero(parse(reply).value) ==> r == parse(reply)
    ensures (parse(reply).Some? && parse(reply).value.JArray? && parse(reply).value.items != []) ==>
              r == parse(reply) && ForInValues(r.value) == parse(reply).value.items
  {
    match parse(reply)
    case None => None
    case Some(j) => if j.JNull? || LengthIsZero(j) then None else Some(j)
  }

  /**
   * The notifier table after a publisher-list loop passed the first
   * `processed` entries of `entries`, all strings, to addPublisher: old
   * notifiers untouched, each new address subscribed to every registered user.
   */
  ghost predicate AddedPublishers(n0: Notifiers, n1: Notifiers, ru: Registrations, entries: seq<Json>, processed: nat)
  {
    && processed <= |entries|
    && (forall k :: 0 <= k < processed ==> entries[k].JString?)
    && n1.Keys == n0.Keys + (set k | 0 <= k < processed && entries[k].JString? :: entries[k].s)
    && (forall a :: a in n0 ==> n1[a] == n0[a])
    && (forall a :: a in n1 && a !in n0 ==> n1[a] == ru.Keys)
  }

  /** A publisher list that is all strings is added completely, and no notifier loses a subscriber. */
  lemma AddedPublishersGrows(n0: Notifiers, n1: Notifiers, ru: Registrations, entries: seq<Json>)
    requires AddedPublishers(n0, n1, ru, entries, |entries|)
    ensures Grows(n0, n1)
    ensures forall k :: 0 <= k < |entries| ==> entries[k].s in n1
  {
    forall k | 0 <= k < |entries| ensures entries[k].s in n1 {
      assert entries[k].s in (set k | 0 <= k < |entries| && entries[k].JString? :: entries[k].s);
    }
  }
}
