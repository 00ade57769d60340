/** The two scheduled jobs and the order submission, with the Slack Web API
    replaced by an outbox: each `chat.postMessage` the source makes is one
    `Payload` appended, in order. `send_slack_message` catches every error
    itself, so a failed send never stops a loop; the outbox records the
    attempts. Every response the jobs give the scheduler is HTTP 200 as
    long as the document store answers. */
module Jobs {
  import opened Decimal
  import opened Dates
  import opened Menu
  import opened Orders

  datatype Response = Response(body: string, status: int)

  /** What a message carries: the reminder blocks built from the dish list
      (their emoji, image and layout are not modelled), or plain text. */
  datatype Content = MenuReminder(dishes: seq<string>) | PlainText(text: string)

  datatype Payload = Payload(channel: string, content: Content)

  /** `weekday() not in [5, 6]`: Monday to Friday. */
  function IsMorningReminderDay(weekday: int): (b: bool)
    ensures 0 <= weekday < 7 ==> (b <==> weekday < 5)
  {
    weekday != 5 && weekday != 6
  }

  /** `weekday() in [0, 1, 2, 3, 6]`: Sunday to Thursday, the days whose
      next day is a morning-reminder day. */
  function IsDailyReminderDay(weekday: int): (b: bool)
    ensures 0 <= weekday < 7 ==> (b <==> IsMorningReminderDay((weekday + 1) % 7))
  {
    weekday == 0 || weekday == 1 || weekday == 2 || weekday == 3 || weekday == 6
  }

  /** The evening reminder runs exactly on the eve of a working day: on the
      days whose next day the morning reminder runs on. */
  lemma DailyReminderOnEveOfWorkday(today: Date)
    requires ValidDate(today) && AddDay(today).Some?
    ensures IsDailyReminderDay(Weekday(today)) <==> IsMorningReminderDay(Weekday(AddDay(today).value))
  {
    WeekdayNext(today);
  }

  /** In the first week of 2024, day `k` of January has weekday `k - 1`. */
  lemma {:induction false} FirstWeekOf2024(k: int)
    requires 1 <= k <= 7
    ensures Weekday(Date(2024, 1, k)) == k - 1
  {
    if k == 1 {
      WeekdayAnchor();
    } else {
      FirstWeekOf2024(k - 1);
      WeekdayNext(Date(2024, 1, k - 1));
      assert AddDay(Date(2024, 1, k - 1)) == Some(Date(2024, 1, k));
    }
  }

  /** The gates on the week of Monday 1 January 2024: the evening reminder
      runs Sunday to Thursday, the morning reminder Monday to Friday. */
  lemma GatesOnCalendarWeek(day: int)
    requires 1 <= day <= 7
    ensures var w := Weekday(Date(2024, 1, day));
      && (IsDailyReminderDay(w) <==> day != 5 && day != 6)
      && (IsMorningReminderDay(w) <==> day <= 5)
  {
    FirstWeekOf2024(day);
  }

  /** `trigger_daily_reminder` on `today`: off on Friday and Saturday;
      otherwise the menu is read (header search by `test`, `Substring` as
      main.py has it) and, if there is one, every subscribed user is sent
      one reminder carrying it, in the order of the subscriber list. */
  method TriggerDailyReminder(today: Date, fetch: Fetch, subscribedUsers: seq<string>, targetPrice: int, test: HeaderTest)
    returns (response: Response, outbox: seq<Payload>)
    requires ValidDate(today)
    ensures response.status == 200
    ensures !IsDailyReminderDay(Weekday(today)) ==>
      response.body == "Not a reminder day." && outbox == []
    ensures IsDailyReminderDay(Weekday(today)) && DailyMenu(fetch, today, targetPrice, test).Err? ==>
      response.body == ErrorText(DailyMenu(fetch, today, targetPrice, test).error) && outbox == []
    ensures IsDailyReminderDay(Weekday(today)) && DailyMenu(fetch, today, targetPrice, test).Ok? ==>
      && response.body == (if subscribedUsers == [] then "No users." else "Reminders sent.")
      && |outbox| == |subscribedUsers|
      && forall i :: 0 <= i < |outbox| ==>
           outbox[i] == Payload(subscribedUsers[i], MenuReminder(DailyMenu(fetch, today, targetPrice, test).dishes))
    ensures forall p :: p in outbox ==> p.content.MenuReminder? && p.content.dishes != []
  {
    outbox := [];
    if !IsDailyReminderDay(Weekday(today)) {
      return Response("Not a reminder day.", 200), outbox;
    }
    var menuItems := GetDailyMenu(fetch, today, targetPrice, test);
    if menuItems.Err? {
      return Response(ErrorText(menuItems.error), 200), outbox;
    }
    if subscribedUsers == [] {
      return Response("No users.", 200), outbox;
    }
    var messageBlocks := MenuReminder(menuItems.dishes);
    var i := 0;
    while i < |subscribedUsers|
      invariant 0 <= i <= |subscribedUsers|
      invariant |outbox| == i
      invariant forall j :: 0 <= j < i ==> outbox[j] == Payload(subscribedUsers[j], messageBlocks)
    {
      outbox := outbox + [Payload(subscribedUsers[i], messageBlocks)];
      i := i + 1;
    }
    response := Response("Reminders sent.", 200);
  }

  const MorningPrefix := "Dobré ráno! \U{1F438} Jen připomínám, že dnes máš k obědu: *"

  /** The morning message naming the meal. */
  function MorningText(meal: string): string {
    MorningPrefix + meal + "*"
  }

  /** An order is reminded about when both its user and meal are non-empty
      (`if user_id and meal`). */
  predicate Remindable(o: Order) {
    o.slackUserId != [] && o.mealDescription != []
  }

  function MorningMessage(o: Order): Payload {
    Payload(o.slackUserId, PlainText(MorningText(o.mealDescription)))
  }

  /** The messages the morning loop sends for `orders`, in their order. */
  function MorningMessages(orders: seq<Order>): (r: seq<Payload>)
    ensures |r| <= |orders|
    ensures forall k :: 0 <= k < |r| ==> r[k].channel != [] && r[k].content.PlainText?
  {
    if orders == [] then []
    else
      var last := orders[|orders| - 1];
      MorningMessages(orders[..|orders| - 1]) + (if Remindable(last) then [MorningMessage(last)] else [])
  }

  /** The morning messages owed for a set of orders. */
  function MorningPayloads(orders: set<Order>): set<Payload> {
    set o | o in orders && Remindable(o) :: MorningMessage(o)
  }

  /** The loop sends one message per remindable order, and nothing else. */
  lemma {:induction false} MorningMessagesAreOwed(orders: seq<Order>)
    ensures (set p | p in MorningMessages(orders)) == MorningPayloads(set o | o in orders)
  {
    if orders != [] {
      var n := |orders| - 1;
      MorningMessagesAreOwed(orders[..n]);
      var pre := set o | o in orders[..n];
      assert (set o | o in orders) == pre + {orders[n]};
      var extra: set<Payload> := if Remindable(orders[n]) then {MorningMessage(orders[n])} else {};
      assert MorningPayloads(pre + {orders[n]}) == MorningPayloads(pre) + extra;
      var ms := MorningMessages(orders[..n]) + (if Remindable(orders[n]) then [MorningMessage(orders[n])] else []);
      assert (set p | p in ms) == (set p | p in MorningMessages(orders[..n])) + extra;
    }
  }

  /** Every message goes to the user of one of the orders. */
  lemma {:induction false} MorningMessagesChannels(orders: seq<Order>)
    ensures forall p :: p in MorningMessages(orders) ==> exists k :: 0 <= k < |orders| && p.channel == orders[k].slackUserId
  {
    if orders != [] {
      var n := |orders| - 1;
      MorningMessagesChannels(orders[..n]);
      forall p | p in MorningMessages(orders)
        ensures exists k :: 0 <= k < |orders| && p.channel == orders[k].slackUserId
      {
        if p in MorningMessages(orders[..n]) {
          var k :| 0 <= k < n && p.channel == orders[..n][k].slackUserId;
          assert p.channel == orders[k].slackUserId;
        } else {
          assert p.channel == orders[n].slackUserId;
        }
      }
    }
  }

  /** Orders of distinct users get messages on distinct channels. */
  lemma {:induction false} MorningMessagesDistinct(orders: seq<Order>)
    requires forall i, j :: 0 <= i < j < |orders| ==> orders[i].slackUserId != orders[j].slackUserId
    ensures forall i, j :: 0 <= i < j < |MorningMessages(orders)| ==>
      MorningMessages(orders)[i].channel != MorningMessages(orders)[j].channel
  {
    if orders != [] {
      var n := |orders| - 1;
      MorningMessagesDistinct(orders[..n]);
      MorningMessagesChannels(orders[..n]);
      var pre := MorningMessages(orders[..n]);
      forall i | 0 <= i < |pre| ensures pre[i].channel != orders[n].slackUserId {
        assert pre[i] in pre;
        var k :| 0 <= k < n && pre[i].channel == orders[..n][k].slackUserId;
      }
      var ms := MorningMessages(orders);
      var tail := if Remindable(orders[n]) then [MorningMessage(orders[n])] else [];
      assert ms == pre + tail;
      assert |tail| <= 1 && (tail != [] ==> tail[0].channel == orders[n].slackUserId);
      forall i, j | 0 <= i < j < |ms| ensures ms[i].channel != ms[j].channel {
        if j >= |pre| {
          assert ms[j] == tail[0] && ms[i] == pre[i];
        } else {
          assert ms[i] == pre[i] && ms[j] == pre[j];
        }
      }
    }
  }

  /** `trigger_morning_reminder` on `today`: off at the weekend; otherwise
      every order for today with a user and a meal gets one message to its
      user naming the meal, each user at most one. */
  method TriggerMorningReminder(ledger: OrderLedger, today: Date)
    returns (response: Response, outbox: seq<Payload>)
    requires ledger.Valid() && ValidDate(today)
    ensures response.status == 200
    ensures !IsMorningReminderDay(Weekday(today)) ==>
      response.body == "Not a workday." && outbox == []
    ensures IsMorningReminderDay(Weekday(today)) ==>
      && (set p | p in outbox) == MorningPayloads(OrdersOn(ledger.docs, IsoDate(today)))
      && response.body == (if OrdersOn(ledger.docs, IsoDate(today)) == {} then "No orders for today."
                           else "Morning reminders sent.")
    ensures forall i, j :: 0 <= i < j < |outbox| ==> outbox[i].channel != outbox[j].channel
  {
    outbox := [];
    if !IsMorningReminderDay(Weekday(today)) {
      return Response("Not a workday.", 200), outbox;
    }
    var todaysOrders := ledger.GetOrdersForDate(today);
    if todaysOrders == [] {
      return Response("No orders for today.", 200), outbox;
    }
    assert todaysOrders[0] in OrdersOn(ledger.docs, IsoDate(today));
    var i := 0;
    while i < |todaysOrders|
      invariant 0 <= i <= |todaysOrders|
      invariant outbox == MorningMessages(todaysOrders[..i])
    {
      var order := todaysOrders[i];
      var userId := order.slackUserId;
      var meal := order.mealDescription;
      if userId != [] && meal != [] {
        outbox := outbox + [Payload(userId, PlainText(MorningText(meal)))];
      }
      assert todaysOrders[..i + 1][..i] == todaysOrders[..i];
      i := i + 1;
    }
    assert todaysOrders[..i] == todaysOrders;
    MorningMessagesAreOwed(todaysOrders);
    forall a, b | 0 <= a < b < |todaysOrders|
      ensures todaysOrders[a].slackUserId != todaysOrders[b].slackUserId
    {
      if todaysOrders[a].slackUserId == todaysOrders[b].slackUserId {
        assert todaysOrders[a] in OrdersOn(ledger.docs, IsoDate(today));
        assert todaysOrders[b] in OrdersOn(ledger.docs, IsoDate(today));
        OneOrderPerUserAndDate(ledger.docs, IsoDate(today), todaysOrders[a], todaysOrders[b]);
        assert false;
      }
    }
    MorningMessagesDistinct(todaysOrders);
    response := Response("Morning reminders sent.", 200);
  }

  const ConfirmationPrefix := "Díky! Uložil jsem, že na zítra máš objednáno: *"

  /** The modal submission: the chosen meal is saved for tomorrow and the
      user is sent a confirmation. Past 31 December 9999 computing tomorrow
      raises, which the web framework answers with HTTP 500, nothing saved. */
  method SubmitOrder(ledger: OrderLedger, userId: string, selectedMeal: string, today: Date)
    returns (response: Response, outbox: seq<Payload>)
    requires ledger.Valid() && ValidDate(today)
    modifies ledger
    ensures ledger.Valid()
    ensures AddDay(today).None? ==>
      ledger.docs == old(ledger.docs) && response.status == 500 && outbox == []
    ensures AddDay(today).Some? ==>
      var tomorrow := AddDay(today).value;
      && ledger.docs == old(ledger.docs)[DocId(userId, IsoDate(tomorrow)) :=
                                         NewOrder(userId, selectedMeal, tomorrow, today)]
      && response == Response("", 200)
      && outbox == [Payload(userId, PlainText(ConfirmationPrefix + selectedMeal + "*"))]
  {
    var tomorrow := AddDay(today);
    if tomorrow.None? {
      return Response("", 500), [];
    }
    ledger.SaveUserOrder(userId, selectedMeal, tomorrow.value, today);
    outbox := [Payload(userId, PlainText(ConfirmationPrefix + selectedMeal + "*"))];
    response := Response("", 200);
  }

  const MenuReloadApology := "Omlouvám se, nepodařilo se mi znovu načíst menu pro výběr."

  /** The "I've ordered" button: the menu is read again; if it cannot be,
      the user is sent an apology and no picker opens; otherwise the picker
      (`views.open`, returned here) offers exactly tomorrow's dishes. The
      header search is done by `test`, as in `DailyMenu`. */
  method OpenOrderModal(userId: string, fetch: Fetch, today: Date, targetPrice: int, test: HeaderTest)
    returns (response: Response, outbox: seq<Payload>, modal: Option<ModalView>)
    requires ValidDate(today)
    ensures response == Response("", 200)
    ensures modal.Some? <==> DailyMenu(fetch, today, targetPrice, test).Ok?
    ensures modal.None? ==> outbox == [Payload(userId, PlainText(MenuReloadApology))]
    ensures modal.Some? ==>
      && outbox == []
      && modal.value.callbackId == "order_submission"
      && OptionValues(modal.value.options) == DailyMenu(fetch, today, targetPrice, test).dishes
  {
    var menuItems := GetDailyMenu(fetch, today, targetPrice, test);
    if menuItems.Err? {
      return Response("", 200), [Payload(userId, PlainText(MenuReloadApology))], None;
    }
    ModalValuesAreMenu(menuItems.dishes);
    var modalView := BuildOrderModalView(menuItems.dishes);
    return Response("", 200), [], Some(modalView);
  }

  /** A meal chosen today is what the user is reminded of tomorrow morning:
      the morning run for tomorrow owes the user exactly one message, and
      it names the newly chosen meal, not an earlier choice. */
  lemma SubmittedOrderRemindedNextMorning(docs: map<string, Order>, userId: string, meal: string, today: Date)
    requires WellKeyed(docs) && ValidDate(today) && AddDay(today).Some?
    requires userId != [] && meal != []
    ensures var t := AddDay(today).value;
      var owed := MorningPayloads(OrdersOn(docs[DocId(userId, IsoDate(t)) := NewOrder(userId, meal, t, today)], IsoDate(t)));
      && Payload(userId, PlainText(MorningText(meal))) in owed
      && forall p :: p in owed && p.channel == userId ==> p == Payload(userId, PlainText(MorningText(meal)))
  {
    var t := AddDay(today).value;
    var o := NewOrder(userId, meal, t, today);
    SaveThenQuerySameDate(docs, userId, meal, t, today);
    var after := OrdersOn(docs[DocId(userId, IsoDate(t)) := o], IsoDate(t));
    assert o in after && Remindable(o);
    forall p | p in MorningPayloads(after) && p.channel == userId
      ensures p == Payload(userId, PlainText(MorningText(meal)))
    {
      var q :| q in after && Remindable(q) && MorningMessage(q) == p;
      assert q == o;
    }
  }
}
