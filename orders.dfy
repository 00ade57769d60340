/** The `orders` collection: one document per user and order date, filed
    under the id `"{user_id}_{YYYY-MM-DD}"`, written by `save_user_order`
    with overwrite semantics and read back by `get_orders_for_date`. The
    document store is a map from document id to document. */
module Orders {
  import opened Dates

  /** The fields `save_user_order` writes. */
  datatype Order = Order(
    slackUserId: string,
    mealDescription: string,
    orderForDate: string,   // %Y-%m-%d
    placedOnDate: string)   // %Y-%m-%d

  /** The document id of a user's order for a date. */
  function DocId(userId: string, isoDate: string): string {
    userId + "_" + isoDate
  }

  /** With fixed-width dates, a document id names one user and one date. */
  lemma DocIdInjective(u1: string, d1: string, u2: string, d2: string)
    requires |d1| == |d2|
    requires DocId(u1, d1) == DocId(u2, d2)
    ensures u1 == u2 && d1 == d2
  {
    var s := DocId(u1, d1);
    assert |u1| == |u2|;
    assert u1 == s[..|u1|];
    assert u2 == DocId(u2, d2)[..|u2|];
    assert d1 == s[|u1| + 1..];
    assert d2 == DocId(u2, d2)[|u2| + 1..];
  }

  /** What `save_user_order` keeps true of the collection: each document
      holds a ten-character (`%Y-%m-%d`) order date and is filed under the
      id of its own user and date. */
  ghost predicate WellKeyed(docs: map<string, Order>) {
    forall k :: k in docs ==>
      |docs[k].orderForDate| == 10 && k == DocId(docs[k].slackUserId, docs[k].orderForDate)
  }

  /** The documents whose `order_for_date` field equals `isoDate`. */
  function OrdersOn(docs: map<string, Order>, isoDate: string): set<Order> {
    set k | k in docs && docs[k].orderForDate == isoDate :: docs[k]
  }

  /** At most one order per user and date: two orders for the same date
      by the same user are the same order. */
  lemma OneOrderPerUserAndDate(docs: map<string, Order>, iso: string, o1: Order, o2: Order)
    requires WellKeyed(docs)
    requires o1 in OrdersOn(docs, iso) && o2 in OrdersOn(docs, iso)
    requires o1.slackUserId == o2.slackUserId
    ensures o1 == o2
  {
    var k1 :| k1 in docs && docs[k1].orderForDate == iso && docs[k1] == o1;
    var k2 :| k2 in docs && docs[k2].orderForDate == iso && docs[k2] == o2;
  }

  /** The documents among `keys` whose date field equals `isoDate`. */
  function OrdersAmong(docs: map<string, Order>, keys: set<string>, isoDate: string): set<Order>
    requires keys <= docs.Keys
  {
    set k | k in keys && docs[k].orderForDate == isoDate :: docs[k]
  }

  lemma OrdersAmongAdd(docs: map<string, Order>, keys: set<string>, k: string, isoDate: string)
    requires keys <= docs.Keys && k in docs
    ensures OrdersAmong(docs, keys + {k}, isoDate) ==
      OrdersAmong(docs, keys, isoDate) + (if docs[k].orderForDate == isoDate then {docs[k]} else {})
  {
  }

  /** The document `save_user_order(userId, meal, d)` writes on `today`. */
  function NewOrder(userId: string, meal: string, d: Date, today: Date): (o: Order)
    requires ValidDate(d) && ValidDate(today)
    ensures o.slackUserId == userId && o.mealDescription == meal
    ensures ParseIsoDate(o.orderForDate).Some? && ParseIsoDate(o.orderForDate).value == d
    ensures ParseIsoDate(o.placedOnDate).Some? && ParseIsoDate(o.placedOnDate).value == today
  {
    IsoRoundTrip(d);
    IsoRoundTrip(today);
    Order(userId, meal, IsoDate(d), IsoDate(today))
  }

  /** After a save, the orders for the saved date are the new order plus
      the other users' orders: the user's earlier choice for that date is
      overwritten, never kept beside the new one. */
  lemma SaveThenQuerySameDate(docs: map<string, Order>, userId: string, meal: string, d: Date, today: Date)
    requires WellKeyed(docs) && ValidDate(d) && ValidDate(today)
    ensures var o := NewOrder(userId, meal, d, today);
      OrdersOn(docs[DocId(userId, IsoDate(d)) := o], IsoDate(d)) ==
        {o} + (set p | p in OrdersOn(docs, IsoDate(d)) && p.slackUserId != userId)
  {
    var o := NewOrder(userId, meal, d, today);
    var iso := IsoDate(d);
    var key := DocId(userId, iso);
    var docs' := docs[key := o];
    var others := set p | p in OrdersOn(docs, iso) && p.slackUserId != userId;
    forall p | p in OrdersOn(docs', iso) ensures p in {o} + others {
      var k :| k in docs' && docs'[k].orderForDate == iso && docs'[k] == p;
      if k != key {
        assert p in OrdersOn(docs, iso);
        if p.slackUserId == userId {
          DocIdInjective(userId, iso, p.slackUserId, p.orderForDate);
          assert false;
        }
      }
    }
    forall p | p in others ensures p in OrdersOn(docs', iso) {
      var k :| k in docs && docs[k].orderForDate == iso && docs[k] == p;
      if k == key {
        DocIdInjective(userId, iso, p.slackUserId, p.orderForDate);
        assert false;
      }
      assert docs'[k] == p;
    }
    assert docs'[key] == o && o.orderForDate == iso;
    assert o in OrdersOn(docs', iso);
  }

  /** A save leaves the orders for every other date unchanged. */
  lemma SaveThenQueryOtherDate(docs: map<string, Order>, userId: string, meal: string,
                               d: Date, today: Date, e: Date)
    requires WellKeyed(docs) && ValidDate(d) && ValidDate(today) && ValidDate(e)
    requires e != d
    ensures OrdersOn(docs[DocId(userId, IsoDate(d)) := NewOrder(userId, meal, d, today)], IsoDate(e))
      == OrdersOn(docs, IsoDate(e))
  {
    var o := NewOrder(userId, meal, d, today);
    var key := DocId(userId, IsoDate(d));
    var docs' := docs[key := o];
    var iso := IsoDate(e);
    if IsoDate(d) == iso {
      IsoDateInjective(d, e);
    }
    if key in docs {
      DocIdInjective(userId, IsoDate(d), docs[key].slackUserId, docs[key].orderForDate);
    }
    forall p | p in OrdersOn(docs', iso) ensures p in OrdersOn(docs, iso) {
      var k :| k in docs' && docs'[k].orderForDate == iso && docs'[k] == p;
    }
    forall p | p in OrdersOn(docs, iso) ensures p in OrdersOn(docs', iso) {
      var k :| k in docs && docs[k].orderForDate == iso && docs[k] == p;
      assert docs'[k] == p;
    }
  }

  /** The `orders` collection, updated in place. */
  class OrderLedger {
    var docs: map<string, Order>

    ghost predicate Valid()
      reads this
    {
      WellKeyed(docs)
    }

    constructor ()
      ensures Valid() && docs == map[]
    {
      docs := map[];
    }

    /** `save_user_order`: write the order under the user's id for that
        date, replacing any earlier order for the pair and leaving every
        other document as it was. */
    method SaveUserOrder(userId: string, mealChoice: string, orderForDate: Date, today: Date)
      requires Valid() && ValidDate(orderForDate) && ValidDate(today)
      modifies this
      ensures Valid()
      ensures docs == old(docs)[DocId(userId, IsoDate(orderForDate)) :=
                                NewOrder(userId, mealChoice, orderForDate, today)]
      ensures forall k :: k != DocId(userId, IsoDate(orderForDate)) ==>
                (k in docs <==> k in old(docs)) && (k in docs ==> docs[k] == old(docs)[k])
    {
      var orderData := Order(userId, mealChoice, IsoDate(orderForDate), IsoDate(today));
      var docId := DocId(userId, IsoDate(orderForDate));
      docs := docs[docId := orderData];
    }

    /** `get_orders_for_date`: every order whose date field is the target
        date, each once. The store's result order is not modelled. */
    method GetOrdersForDate(targetDate: Date) returns (orders: seq<Order>)
      requires Valid() && ValidDate(targetDate)
      ensures (set o | o in orders) == OrdersOn(docs, IsoDate(targetDate))
      ensures forall i, j :: 0 <= i < j < |orders| ==> orders[i] != orders[j]
    {
      var iso := IsoDate(targetDate);
      orders := [];
      var remaining := docs.Keys;
      while remaining != {}
        invariant remaining <= docs.Keys
        invariant (set o | o in orders) == OrdersAmong(docs, docs.Keys - remaining, iso)
        invariant forall i, j :: 0 <= i < j < |orders| ==> orders[i] != orders[j]
        invariant forall i :: 0 <= i < |orders| ==>
          DocId(orders[i].slackUserId, orders[i].orderForDate) in docs.Keys - remaining
        decreases remaining
      {
        var k :| k in remaining;
        ghost var before := docs.Keys - remaining;
        OrdersAmongAdd(docs, before, k, iso);
        if docs[k].orderForDate == iso {
          assert docs[k] !in orders;
          orders := orders + [docs[k]];
        }
        remaining := remaining - {k};
        assert docs.Keys - remaining == before + {k};
      }
      assert docs.Keys - remaining == docs.Keys;
    }
  }
}
