/** The mana store: orders are paid in mana out of limited stock, and HR moves them through their statuses. */
module Store {
  import opened Wrappers
  import opened Models
  import opened Db
  import opened Text
  import opened Journal

  /** `build_store_image_url`: a stored relative path becomes a public URL under "/uploads/";
      a missing or empty path has none. */
  function BuildStoreImageUrl(relativePath: Option<string>): (url: Option<string>)
    ensures relativePath.None? || relativePath.value == "" ==> url.None?
    ensures relativePath.Some? && relativePath.value != "" ==>
      url.Some? && |url.value| >= 9 && url.value[..9] == "/uploads/"
      && (|url.value| == 9 || url.value[9] != '/')
      && var rest := url.value[9..];
         |rest| <= |relativePath.value| && rest == relativePath.value[|relativePath.value| - |rest|..]
         && forall i :: 0 <= i < |relativePath.value| - |rest| ==> relativePath.value[i] == '/'
  {
    match relativePath
    case None => None
    case Some(p) =>
      if p == "" then None
      else
        var rest := DropLeading(p, '/');
        assert ("/uploads/" + rest)[9..] == rest;
        Some("/uploads/" + rest)
  }

  /** Leading slashes on the stored path do not change the URL. */
  lemma LeadingSlashIgnored(path: string)
    requires path != ""
    ensures BuildStoreImageUrl(Some("/" + path)) == BuildStoreImageUrl(Some(path))
  {
    assert ("/" + path)[1..] == path;
  }

  /** Only the empty path counts as missing: a path of slashes alone becomes the uploads root. */
  lemma SlashOnlyPathIsRoot()
    ensures BuildStoreImageUrl(Some("/")) == Some("/uploads/")
  {
    assert "/"[1..] == "";
    assert DropLeading("/", '/') == DropLeading("", '/');
    assert "/uploads/" + "" == "/uploads/";
  }

  /** `create_order`: an item out of stock is refused first, then a user short of mana; otherwise
      the user pays exactly the item's cost, the stock drops by one, a CREATED order is added and
      an ORDER_CREATED entry records the spent mana. */
  method CreateOrder(db: Session, userId: nat, itemId: nat, comment: Option<string>) returns (r: Result<nat, Error>)
    requires userId in db.users && itemId in db.storeItems
    modifies db`users, db`storeItems, db`orders, db`journal
    ensures var item := old(db.storeItems[itemId]);
      item.stock <= 0 ==> r == Err(BadRequest("Товар закончился"))
    ensures var item := old(db.storeItems[itemId]);
      item.stock > 0 && old(db.users[userId]).mana < item.costMana ==> r == Err(BadRequest("Недостаточно маны"))
    ensures r.Err? ==> unchanged(db`users, db`storeItems, db`orders, db`journal)
    ensures var item := old(db.storeItems[itemId]);
      var user := old(db.users[userId]);
      item.stock > 0 && user.mana >= item.costMana ==>
        r == Ok(|old(db.orders)|)
        && db.users == old(db.users)[userId := user.(mana := user.mana - item.costMana)]
        && db.storeItems == old(db.storeItems)[itemId := item.(stock := item.stock - 1)]
        && db.orders == old(db.orders) + [Order(userId, itemId, OrderStatus.Created, comment)]
        && db.journal == old(db.journal) + [JournalEntry(userId, OrderCreated, "Заказ «" + item.name + "» оформлен",
             "Команда HR подтвердит и передаст приз.", OrderCreatedPayload(|old(db.orders)|, itemId), 0, -item.costMana)]
    ensures r.Ok? ==> db.users[userId].mana >= 0 && db.storeItems[itemId].stock >= 0
  {
    var item := db.storeItems[itemId];
    var user := db.users[userId];
    if item.stock <= 0 {
      return Err(BadRequest("Товар закончился"));
    }
    if user.mana < item.costMana {
      return Err(BadRequest("Недостаточно маны"));
    }
    db.users := db.users[userId := user.(mana := user.mana - item.costMana)];
    db.storeItems := db.storeItems[itemId := item.(stock := item.stock - 1)];
    var orderId := |db.orders|;
    db.orders := db.orders + [Order(userId, itemId, OrderStatus.Created, comment)];
    var _ := LogEvent(db, userId, OrderCreated, "Заказ «" + item.name + "» оформлен",
                      "Команда HR подтвердит и передаст приз.", OrderCreatedPayload(orderId, itemId), 0, -item.costMana);
    r := Ok(orderId);
  }

  /** The mana the user has spent on the listed orders, at the items' current costs. */
  function Spent(orders: seq<Order>, items: map<nat, StoreItem>, userId: nat): int {
    if |orders| == 0 then 0
    else Spent(orders[..|orders| - 1], items, userId)
         + (var o := orders[|orders| - 1];
            if o.userId == userId && o.itemId in items then items[o.itemId].costMana else 0)
  }

  /** An order adds its cost to the user's spending and nobody else's: with the mana debited by
      `create_order`, the user's mana plus their spending is the same before and after. */
  lemma OrderConservesMana(orders: seq<Order>, items: map<nat, StoreItem>, userId: nat, itemId: nat,
                           comment: Option<string>, other: nat)
    requires itemId in items
    ensures Spent(orders + [Order(userId, itemId, OrderStatus.Created, comment)], items, userId)
            == Spent(orders, items, userId) + items[itemId].costMana
    ensures other != userId ==>
      Spent(orders + [Order(userId, itemId, OrderStatus.Created, comment)], items, other) == Spent(orders, items, other)
  {
    assert (orders + [Order(userId, itemId, OrderStatus.Created, comment)])[..|orders|] == orders;
  }

  /** `update_order_status`: any status may be set, with no transition check and no refund; only
      approval is announced in the journal. */
  method UpdateOrderStatus(db: Session, orderId: nat, status: OrderStatus) returns (order: Order)
    requires orderId < |db.orders| && db.orders[orderId].itemId in db.storeItems
    modifies db`orders, db`journal
    ensures order == old(db.orders[orderId]).(status := status)
    ensures db.orders == old(db.orders)[orderId := order]
    ensures status.Approved? ==>
      db.journal == old(db.journal) + [JournalEntry(order.userId, OrderApproved,
        "Заказ «" + db.storeItems[order.itemId].name + "» одобрен", "Скоро мы свяжемся для вручения.",
        OrderPayload(orderId), 0, 0)]
    ensures !status.Approved? ==> db.journal == old(db.journal)
  {
    order := db.orders[orderId].(status := status);
    db.orders := db.orders[orderId := order];
    if status.Approved? {
      var _ := LogEvent(db, order.userId, OrderApproved, "Заказ «" + db.storeItems[order.itemId].name + "» одобрен",
                        "Скоро мы свяжемся для вручения.", OrderPayload(orderId));
    }
  }

  /** A status change leaves every user's spending as it was: rejecting an order refunds nothing. */
  lemma StatusChangeRefundsNothing(orders: seq<Order>, items: map<nat, StoreItem>, orderId: nat,
                                   status: OrderStatus, userId: nat)
    requires orderId < |orders|
    ensures Spent(orders[orderId := orders[orderId].(status := status)], items, userId) == Spent(orders, items, userId)
  {
    var changed := orders[orderId := orders[orderId].(status := status)];
    if |orders| > 0 {
      if orderId < |orders| - 1 {
        assert changed[..|changed| - 1] == orders[..|orders| - 1][orderId := orders[orderId].(status := status)];
        StatusChangeRefundsNothing(orders[..|orders| - 1], items, orderId, status, userId);
      } else {
        assert changed[..|changed| - 1] == orders[..|orders| - 1];
      }
    }
  }
}
