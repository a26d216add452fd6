/**
 * The closure state of initNotificationPipe as an object: the notifier
 * table, the registrations per user, and a ghost copy of the filter table of
 * the shared ZeroMQ subscriber socket. Each event handler of notificationpipe.js
 * is one method, run atomically.
 */
module NotificationPipe {
  import opened Wrappers
  import opened Text
  import opened Registry

  /** One callback invocation: the registration whose callback runs, and the decoded notification. */
  datatype Delivery = Delivery(handle: Registration, payload: Json)

  /** What the wire-message handler does with one message. */
  datatype RouteOutcome =
    | Malformed                          // no '|' or a leading '|': logged and dropped
    | PayloadRejected                    // JSON.parse throws on the payload
    | Routed(deliveries: seq<Delivery>)  // one delivery per registration of the recipient, in order

  class Pipe {
    var notifiers: Notifiers
    var registeredUsers: Registrations
    /** The subscriber socket's filter table, changed only by doSubscribe and doUnsubscribe. */
    ghost var filters: Filters

    ghost predicate Valid()
      reads this
    {
      && Inv(notifiers, registeredUsers)
      && Counted(notifiers, filters)
    }

    constructor ()
      ensures Valid()
      ensures notifiers == map[] && registeredUsers == map[] && filters == multiset{}
    {
      notifiers := map[];
      registeredUsers := map[];
      filters := multiset{};
    }

    /** doSubscribe: subscribe the socket to `user` and record it as a subscriber of the notifier. */
    method DoSubscribe(address: Address, user: User)
      requires address in notifiers
      modifies this
      ensures notifiers == old(notifiers)[address := old(notifiers)[address] + {user}]
      ensures registeredUsers == old(registeredUsers)
      ensures filters == old(filters) + multiset{user}
    {
      filters := filters + multiset{user};
      notifiers := notifiers[address := notifiers[address] + {user}];
    }

    /** doUnsubscribe: unsubscribe the socket from `user` and delete it from the notifier's subscribers. */
    method DoUnsubscribe(address: Address, user: User)
      requires address in notifiers
      modifies this
      ensures notifiers == old(notifiers)[address := old(notifiers)[address] - {user}]
      ensures registeredUsers == old(registeredUsers)
      ensures filters == old(filters) - multiset{user}
    {
      filters := filters - multiset{user};
      notifiers := notifiers[address := notifiers[address] - {user}];
    }

    /** subscribeToUserNotifications: every notifier that lacks `user` gets it, one socket subscribe each. */
    method SubscribeToUserNotifications(user: User)
      modifies this
      ensures notifiers == SubscribeEverywhere(old(notifiers), user)
      ensures registeredUsers == old(registeredUsers)
      ensures filters == old(filters)[user := old(filters)[user] + |Lacking(old(notifiers), user)|]
    {
      ghost var n0, f0 := notifiers, filters;
      ghost var lacking := Lacking(n0, user);
      var pending := notifiers.Keys;
      NotifiersLoopStart(n0, user, true);
      FiltersLoopStart(f0, user, true, lacking, pending);
      while pending != {}
        invariant registeredUsers == old(registeredUsers)
        invariant NotifiersSoFar(n0, user, true, pending, notifiers)
        invariant FiltersSoFar(f0, user, true, lacking, pending, filters)
        decreases pending
      {
        var x :| x in pending;
        SubscribeAt(x, user, n0, f0, pending);
        pending := pending - {x};
      }
      NotifiersLoopDone(n0, user, true, notifiers);
      FiltersLoopDone(f0, user, true, lacking, filters);
    }

    /** One pass of subscribeToUserNotifications' loop: notifier `x` gets `user` unless it already has it. */
    method SubscribeAt(x: Address, user: User, ghost n0: Notifiers, ghost f0: Filters, ghost pending: set<Address>)
      requires x in pending
      requires NotifiersSoFar(n0, user, true, pending, notifiers)
      requires FiltersSoFar(f0, user, true, Lacking(n0, user), pending, filters)
      modifies this
      ensures registeredUsers == old(registeredUsers)
      ensures NotifiersSoFar(n0, user, true, pending - {x}, notifiers)
      ensures FiltersSoFar(f0, user, true, Lacking(n0, user), pending - {x}, filters)
    {
      NotifiersLoopStep(n0, user, true, pending, x, notifiers);
      FiltersLoopStep(f0, user, true, Lacking(n0, user), pending, x, filters);
      if user !in notifiers[x] {
        DoSubscribe(x, user);
      }
    }

    /**
     * unsubscribeToUserNotifications as written: its guard selects the
     * notifiers that LACK `user`, so it unsubscribes the socket once for each
     * of them and deletes nothing from any subscriber set.
     */
    method UnsubscribeToUserNotifications(user: User)
      modifies this
      ensures notifiers == old(notifiers)
      ensures registeredUsers == old(registeredUsers)
      ensures filters == old(filters)[user := Drop(old(filters)[user], |Lacking(old(notifiers), user)|)]
    {
      ghost var n0, f0 := notifiers, filters;
      ghost var lacking := Lacking(n0, user);
      var pending := notifiers.Keys;
      FiltersLoopStart(f0, user, false, lacking, pending);
      while pending != {}
        invariant pending <= n0.Keys
        invariant notifiers == n0
        invariant registeredUsers == old(registeredUsers)
        invariant FiltersSoFar(f0, user, false, lacking, pending, filters)
        decreases pending
      {
        var x :| x in pending;
        FiltersLoopStep(f0, user, false, lacking, pending, x, filters);
        if user !in notifiers[x] {
          DeleteAbsent(notifiers, x, user);
          DoUnsubscribe(x, user);
        }
        pending := pending - {x};
      }
      FiltersLoopDone(f0, user, false, lacking, filters);
    }

    /** The loop the unsubscribe helper evidently means: every notifier that holds `user` drops it, one socket unsubscribe each. */
    method UnsubscribeIntended(user: User)
      modifies this
      ensures notifiers == UnsubscribeEverywhere(old(notifiers), user)
      ensures registeredUsers == old(registeredUsers)
      ensures filters == old(filters)[user := Drop(old(filters)[user], |Holding(old(notifiers), user)|)]
    {
      ghost var n0, f0 := notifiers, filters;
      ghost var holding := Holding(n0, user);
      var pending := notifiers.Keys;
      NotifiersLoopStart(n0, user, false);
      FiltersLoopStart(f0, user, false, holding, pending);
      while pending != {}
        invariant registeredUsers == old(registeredUsers)
        invariant NotifiersSoFar(n0, user, false, pending, notifiers)
        invariant FiltersSoFar(f0, user, false, holding, pending, filters)
        decreases pending
      {
        var x :| x in pending;
        UnsubscribeAt(x, user, n0, f0, pending);
        pending := pending - {x};
      }
      NotifiersLoopDone(n0, user, false, notifiers);
      FiltersLoopDone(f0, user, false, holding, filters);
    }

    /** One pass of the intended unsubscribe loop: notifier `x` drops `user` if it has it. */
    method UnsubscribeAt(x: Address, user: User, ghost n0: Notifiers, ghost f0: Filters, ghost pending: set<Address>)
      requires x in pending
      requires NotifiersSoFar(n0, user, false, pending, notifiers)
      requires FiltersSoFar(f0, user, false, Holding(n0, user), pending, filters)
      modifies this
      ensures registeredUsers == old(registeredUsers)
      ensures NotifiersSoFar(n0, user, false, pending - {x}, notifiers)
      ensures FiltersSoFar(f0, user, false, Holding(n0, user), pending - {x}, filters)
    {
      NotifiersLoopStep(n0, user, false, pending, x, notifiers);
      FiltersLoopStep(f0, user, false, Holding(n0, user), pending, x, filters);
      if user in notifiers[x] {
        DoUnsubscribe(x, user);
      }
    }

    /**
     * addPublisher: a known address is ignored; a new one gets a notifier,
     * and every registered user is subscribed on it, once each.
     */
    method AddPublisher(address: Address)
      requires Valid()
      modifies this
      ensures Valid()
      ensures notifiers == AddPublisherSpec(old(notifiers), old(registeredUsers), address)
      ensures registeredUsers == old(registeredUsers)
      ensures Grows(old(notifiers), notifiers)
      ensures address in old(notifiers) ==> filters == old(filters)
      ensures address !in old(notifiers) ==> filters == old(filters) + multiset(registeredUsers.Keys)
    {
      AddPublisherKeepsInv(notifiers, registeredUsers, address);
      AddPublisherKeepsCounted(notifiers, registeredUsers, filters, address);
      if address in notifiers {
        return;
      }
      ghost var n0, f0 := notifiers, filters;
      notifiers := notifiers[address := {}];
      var pending := registeredUsers.Keys;
      FillStart(n0, f0, registeredUsers, address);
      while pending != {}
        invariant registeredUsers == old(registeredUsers)
        invariant FilledSoFar(n0, f0, registeredUsers, address, pending, notifiers, filters)
        decreases pending
      {
        var user :| user in pending;
        FillStep(n0, f0, registeredUsers, address, pending, user, notifiers, filters);
        DoSubscribe(address, user);
        pending := pending - {user};
      }
      FillDone(n0, f0, registeredUsers, address, notifiers, filters);
    }

    /**
     * The loop over a received publisher list: each entry, in order, goes to
     * addPublisher. A non-string entry would reach ZeroMQ's connect, which is
     * outside this model; the loop stops there. `processed` counts the
     * entries handed over.
     */
    method AddPublishers(entries: seq<Json>) returns (processed: nat)
      requires Valid()
      modifies this
      ensures Valid()
      ensures registeredUsers == old(registeredUsers)
      ensures AddedPublishers(old(notifiers), notifiers, registeredUsers, entries, processed)
      ensures processed < |entries| ==> !entries[processed].JString?
    {
      processed := 0;
      while processed < |entries| && entries[processed].JString?
        invariant Valid()
        invariant registeredUsers == old(registeredUsers)
        invariant AddedPublishers(old(notifiers), notifiers, registeredUsers, entries, processed)
        decreases |entries| - processed
      {
        AddedPublishersStep(old(notifiers), notifiers, registeredUsers, entries, processed);
        AddPublisher(entries[processed].s);
        processed := processed + 1;
      }
    }

    /**
     * The directory reply handler: a reply classified as null adds nothing;
     * otherwise every value the for..in loop visits goes to addPublisher.
     */
    method OnDirectoryReply(reply: string, parse: string -> Option<Json>) returns (processed: nat)
      requires Valid()
      modifies this
      ensures Valid()
      ensures registeredUsers == old(registeredUsers)
      ensures ClassifyDirectoryReply(reply, parse).None? ==>
                processed == 0 && notifiers == old(notifiers) && filters == old(filters)
      ensures ClassifyDirectoryReply(reply, parse).Some? ==>
                AddedPublishers(old(notifiers), notifiers, registeredUsers,
                                ForInValues(ClassifyDirectoryReply(reply, parse).value), processed)
      ensures ClassifyDirectoryReply(reply, parse).Some? ==>
                var values := ForInValues(ClassifyDirectoryReply(reply, parse).value);
                processed < |values| ==> !values[processed].JString?
    {
      var listOfNotifiers := ClassifyDirectoryReply(reply, parse);
      if listOfNotifiers.None? {
        return 0;
      }
      processed := AddPublishers(ForInValues(listOfNotifiers.value));
    }

    /**
     * The discovery broadcast handler: JSON.parse throws on a malformed
     * message (`parsed` is false and nothing changes); otherwise every value
     * the for..in loop visits goes to addPublisher.
     */
    method OnPublisherList(message: string, parse: string -> Option<Json>) returns (parsed: bool, processed: nat)
      requires Valid()
      modifies this
      ensures Valid()
      ensures registeredUsers == old(registeredUsers)
      ensures parsed == parse(message).Some?
      ensures !parsed ==> processed == 0 && notifiers == old(notifiers) && filters == old(filters)
      ensures parsed ==> AddedPublishers(old(notifiers), notifiers, registeredUsers,
                                         ForInValues(parse(message).value), processed)
      ensures parsed ==>
                var values := ForInValues(parse(message).value);
                processed < |values| ==> !values[processed].JString?
    {
      var receivedPublishers := parse(message);
      if receivedPublishers.None? {
        return false, 0;
      }
      parsed := true;
      processed := AddPublishers(ForInValues(receivedPublishers.value));
    }

    /** The first registration of `user`: an empty list, and `user` subscribed on every notifier that lacks it. */
    method FirstRegistration(user: User)
      requires Counted(notifiers, filters) && user !in registeredUsers
      modifies this
      ensures registeredUsers == old(registeredUsers)[user := []]
      ensures notifiers == RegisterNotifiers(old(notifiers), old(registeredUsers), user)
      ensures filters == RegisterFilters(old(notifiers), old(registeredUsers), old(filters), user)
    {
      SubscribeEverywhereKeepsCounted(notifiers, filters, user);
      registeredUsers := registeredUsers[user := []];
      SubscribeToUserNotifications(user);
    }

    /**
     * register: a fresh registration is appended to `user`'s list; the first
     * registration of a user also subscribes every notifier that lacks it.
     */
    method Register(user: User, callback: Callback) returns (h: Registration)
      requires Valid()
      modifies this
      ensures Valid()
      ensures fresh(h) && h.user == user && h.callback == callback
      ensures registeredUsers == RegisterSpec(old(registeredUsers), user, h)
      ensures notifiers == RegisterNotifiers(old(notifiers), old(registeredUsers), user)
      ensures filters == RegisterFilters(old(notifiers), old(registeredUsers), old(filters), user)
      ensures Grows(old(notifiers), notifiers)
    {
      h := new Registration(user, callback);
      ghost var n0, ru0, f0 := notifiers, registeredUsers, filters;
      assert h !in Listeners(ru0, user);
      RegisterKeepsInv(n0, ru0, user, h);
      RegisterKeepsCounted(n0, ru0, f0, user);
      RegisterSpecSteps(ru0, user, h);
      if user !in registeredUsers {
        FirstRegistration(user);
      }
      registeredUsers := registeredUsers[user := registeredUsers[user] + [h]];
    }

    /**
     * unregister as written: the first occurrence of `h` leaves `user`'s list
     * and an emptied list is deleted, but the unsubscribe loop it then runs
     * finds no notifier lacking `user`, so no notifier and no socket filter
     * changes.
     */
    method Unregister(user: User, h: Registration)
      requires Valid()
      modifies this
      ensures Valid()
      ensures registeredUsers == UnregisterSpec(old(registeredUsers), user, h)
      ensures notifiers == old(notifiers)
      ensures filters == old(filters)
    {
      ghost var n0, ru0 := notifiers, registeredUsers;
      UnregisterKeepsInv(n0, ru0, user, h);
      if user !in registeredUsers {
        return;
      }
      RegisteredLacksNothing(n0, ru0, user);
      UnregisterSpecSteps(ru0, user, h);
      var registryPosition := IndexOf(registeredUsers[user], h);
      if registryPosition >= 0 {
        registeredUsers := registeredUsers[user := RemoveAt(registeredUsers[user], registryPosition)];
      }
      if |registeredUsers[user]| == 0 {
        registeredUsers := registeredUsers - {user};
        UnsubscribeToUserNotifications(user);
        assert filters == old(filters)[user := old(filters)[user]];
      }
    }

    /**
     * unregister as evidently intended: when the last registration of `user`
     * goes, `user` leaves every subscriber set, with one socket unsubscribe
     * per notifier that held it, and the socket keeps no filter for it.
     */
    method UnregisterIntended(user: User, h: Registration)
      requires Valid()
      modifies this
      ensures Valid()
      ensures registeredUsers == UnregisterSpec(old(registeredUsers), user, h)
      ensures notifiers == UnregisterIntendedSpec(old(notifiers), old(registeredUsers), user, h)
      ensures Exact(old(notifiers), old(registeredUsers)) ==> Exact(notifiers, registeredUsers)
      ensures user in old(registeredUsers) && user !in registeredUsers ==> filters == old(filters)[user := 0]
      ensures user !in old(registeredUsers) || user in registeredUsers ==> filters == old(filters)
    {
      ghost var n0, ru0, f0 := notifiers, registeredUsers, filters;
      UnregisterIntendedKeepsInv(n0, ru0, user, h);
      UnsubscribeEverywhereKeepsCounted(n0, f0, user);
      if Exact(n0, ru0) {
        UnregisterIntendedKeepsExact(n0, ru0, user, h);
      }
      if user !in registeredUsers {
        return;
      }
      UnregisterSpecSteps(ru0, user, h);
      var registryPosition := IndexOf(registeredUsers[user], h);
      if registryPosition >= 0 {
        registeredUsers := registeredUsers[user := RemoveAt(registeredUsers[user], registryPosition)];
      }
      if |registeredUsers[user]| == 0 {
        registeredUsers := registeredUsers - {user};
        UnsubscribeIntended(user);
      }
    }

    /**
     * The wire-message handler: split at the first '|', parse the payload,
     * and hand it to every registration of the recipient, in list order. An
     * unknown recipient receives nothing.
     */
    method Route(message: string, parse: string -> Option<Json>) returns (outcome: RouteOutcome)
      ensures SplitWire(message).None? <==> outcome == Malformed
      ensures SplitWire(message).Some? ==>
                (outcome == PayloadRejected <==> parse(SplitWire(message).value.1).None?)
      ensures outcome.Routed? ==>
                var (recipient, text) := SplitWire(message).value;
                && parse(text).Some?
                && |outcome.deliveries| == |Listeners(registeredUsers, recipient)|
                && forall k :: 0 <= k < |outcome.deliveries| ==>
                     outcome.deliveries[k] == Delivery(Listeners(registeredUsers, recipient)[k], parse(text).value)
    {
      var separation := IndexOf(message, '|');
      if separation <= 0 {
        return Malformed;
      }
      var recipient := message[..separation];
      var notification := parse(message[separation + 1..]);
      if notification.None? {
        return PayloadRejected;
      }
      if recipient !in registeredUsers {
        return Routed([]);
      }
      var registrations := registeredUsers[recipient];
      var deliveries: seq<Delivery> := [];
      for x := 0 to |registrations|
        invariant |deliveries| == x
        invariant forall k :: 0 <= k < x ==> deliveries[k] == Delivery(registrations[k], notification.value)
      {
        deliveries := deliveries + [Delivery(registrations[x], notification.value)];
      }
      return Routed(deliveries);
    }
  }

  /**
   * A user registered once, on a pipe with one publisher, and then
   * unregistered: the user is gone from the registrations but still a
   * subscriber of the publisher.
   */
  method StaleSubscriptionAfterUnregister()
  {
    var pipe := new Pipe();
    pipe.AddPublisher("tcp://publisher:5555");
    var h := pipe.Register("alice", Callback(1));
    pipe.Unregister("alice", h);
    assert "alice" !in pipe.registeredUsers;
    assert "alice" in pipe.notifiers["tcp://publisher:5555"];
  }

  /** Two registrations of one user and one unregister leave the other registration and the subscription. */
  method TwoRegistrationsOneUnregister()
  {
    var pipe := new Pipe();
    pipe.AddPublisher("tcp://publisher:5555");
    var h1 := pipe.Register("alice", Callback(1));
    var h2 := pipe.Register("alice", Callback(2));
    pipe.Unregister("alice", h1);
    assert pipe.registeredUsers["alice"] == [h2];
    assert "alice" in pipe.notifiers["tcp://publisher:5555"];
  }
}
