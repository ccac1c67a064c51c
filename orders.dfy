/**
 * The order/user service: the field rules of `Order` (a product name that
 * is not blank, a positive quantity defaulting to 1, a positive unit price),
 * the `orders` default of `User`, and the duplicate-email and not-found
 * rules of creating and reading a user with its orders. The `users` table
 * maps the email (its PRIMARY KEY) to the name; `orders` rows are kept in
 * insertion order.
 */
module Orders {
  import opened Wrappers
  import opened Text

  datatype Order = Order(productName: string, quantity: int, pricePerUnit: real)

  /** An order as the request carries it: `quantity` may be omitted. */
  datatype OrderInput = OrderInput(productName: string, quantity: Option<int>, pricePerUnit: real)

  /** The validation errors pydantic reports, one per failing field. */
  datatype OrderError = ProductNameTooShort | ProductNameBlank | QuantityNotPositive | PriceNotPositive

  const DEFAULT_QUANTITY := 1

  /**
   * `name_not_empty`: a name that is only whitespace is refused; any other
   * name is accepted unchanged, not trimmed.
   */
  function NameNotEmpty(v: string): (r: Result<string, OrderError>)
    ensures r.Ok? <==> !AllSpace(v)
    ensures r.Ok? ==> r.value == v
    ensures r.Err? ==> r.error == ProductNameBlank
  {
    if Strip(v) == "" then Err(ProductNameBlank) else Ok(v)
  }

  /** `product_name`: `min_length=1` first; the validator runs only on what passes it. */
  function ProductNameErrors(v: string): (errs: seq<OrderError>)
    ensures errs == [] <==> !AllSpace(v)
    ensures |v| == 0 ==> errs == [ProductNameTooShort]
  {
    if |v| < 1 then [ProductNameTooShort]
    else match NameNotEmpty(v)
      case Ok(_) => []
      case Err(e) => [e]
  }

  /** `quantity`: 1 when omitted, which meets the `gt=0` bound; a given value is kept as sent. */
  function EffectiveQuantity(q: Option<int>): (n: int)
    ensures q.None? ==> n > 0
    ensures q.Some? ==> n == q.value
  {
    match q
    case None => DEFAULT_QUANTITY
    case Some(n) => n
  }

  /**
   * Building an `Order`: every field is checked and every failure reported,
   * in field order; the order is built only when there is none.
   */
  function ValidateOrder(input: OrderInput): (r: Result<Order, seq<OrderError>>)
    ensures r.Ok? <==> !AllSpace(input.productName) && EffectiveQuantity(input.quantity) > 0 && input.pricePerUnit > 0.0
    ensures r.Ok? ==> r.value == Order(input.productName, EffectiveQuantity(input.quantity), input.pricePerUnit)
    ensures input.quantity.None? && r.Ok? ==> r.value.quantity == 1
    ensures r.Err? ==> (|r.error| > 0
      && (QuantityNotPositive in r.error <==> EffectiveQuantity(input.quantity) <= 0)
      && (PriceNotPositive in r.error <==> input.pricePerUnit <= 0.0)
      && (ProductNameBlank in r.error || ProductNameTooShort in r.error <==> AllSpace(input.productName)))
  {
    var q := EffectiveQuantity(input.quantity);
    var errs := ProductNameErrors(input.productName)
      + (if q > 0 then [] else [QuantityNotPositive])
      + (if input.pricePerUnit > 0.0 then [] else [PriceNotPositive]);
    if errs == [] then Ok(Order(input.productName, q, input.pricePerUnit)) else Err(errs)
  }

  /** Every order the model accepts keeps the bounds of the `Order` fields. */
  predicate IsValidOrder(o: Order) {
    !AllSpace(o.productName) && o.quantity > 0 && o.pricePerUnit > 0.0
  }

  datatype User = User(name: string, email: string, orders: seq<Order>)

  /** A user as the request carries it: `orders` may be omitted. */
  datatype UserInput = UserInput(name: string, email: string, orders: Option<seq<OrderInput>>)

  predicate AllOrdersValid(inputs: seq<OrderInput>) {
    forall k :: 0 <= k < |inputs| ==> ValidateOrder(inputs[k]).Ok?
  }

  /** The errors of a list of orders, each order's in turn; none exactly when every order is valid. */
  function OrderErrors(inputs: seq<OrderInput>): (errs: seq<OrderError>)
    ensures errs == [] <==> AllOrdersValid(inputs)
  {
    if |inputs| == 0 then []
    else
      assert AllOrdersValid(inputs) <==> ValidateOrder(inputs[0]).Ok? && AllOrdersValid(inputs[1..]) by {
        assert forall k :: 1 <= k < |inputs| ==> inputs[k] == inputs[1..][k - 1];
      }
      var first := ValidateOrder(inputs[0]);
      (if first.Err? then first.error else []) + OrderErrors(inputs[1..])
  }

  /** `List[Order]`: every order validated, all errors reported, the orders kept in place. */
  function ValidateOrders(inputs: seq<OrderInput>): (r: Result<seq<Order>, seq<OrderError>>)
    ensures r.Ok? <==> AllOrdersValid(inputs)
    ensures r.Err? ==> |r.error| > 0
    ensures r.Ok? ==> |r.value| == |inputs|
    ensures r.Ok? ==> forall k :: 0 <= k < |inputs| ==>
      r.value[k] == Order(inputs[k].productName, EffectiveQuantity(inputs[k].quantity), inputs[k].pricePerUnit)
  {
    if AllOrdersValid(inputs)
    then Ok(seq(|inputs|, k requires 0 <= k < |inputs| => ValidateOrder(inputs[k]).value))
    else Err(OrderErrors(inputs))
  }

  /** Building a `User`: `orders` defaults to the empty list; each order is validated. */
  function ValidateUser(input: UserInput): (r: Result<User, seq<OrderError>>)
    ensures r.Ok? <==> input.orders.None? || AllOrdersValid(input.orders.value)
    ensures input.orders.None? ==> r == Ok(User(input.name, input.email, []))
    ensures r.Ok? && input.orders.Some? ==> r.value.orders == ValidateOrders(input.orders.value).value
    ensures r.Err? ==> r.error == ValidateOrders(input.orders.value).error
    ensures r.Ok? ==> r.value.name == input.name && r.value.email == input.email
    ensures r.Ok? ==> forall k :: 0 <= k < |r.value.orders| ==> IsValidOrder(r.value.orders[k])
  {
    match input.orders
    case None => Ok(User(input.name, input.email, []))
    case Some(os) =>
      match ValidateOrders(os)
      case Err(e) => Err(e)
      case Ok(valid) => Ok(User(input.name, input.email, valid))
  }

  datatype OrderRow = OrderRow(userEmail: string, productName: string, quantity: int, pricePerUnit: real)

  /** The two tables: email to name, and the order rows in insertion order. */
  datatype Store = Store(users: map<string, string>, orders: seq<OrderRow>)

  /** Every order row belongs to a user. */
  ghost predicate ForeignKeys(st: Store) {
    forall k :: 0 <= k < |st.orders| ==> st.orders[k].userEmail in st.users
  }

  /** The rows `create_user` inserts for one user, one per order, all under that email. */
  function RowsFor(email: string, orders: seq<Order>): (rows: seq<OrderRow>)
    ensures |rows| == |orders|
    ensures forall k :: 0 <= k < |rows| ==>
      rows[k] == OrderRow(email, orders[k].productName, orders[k].quantity, orders[k].pricePerUnit)
  {
    if |orders| == 0 then []
    else
      var o := orders[0];
      [OrderRow(email, o.productName, o.quantity, o.pricePerUnit)] + RowsFor(email, orders[1..])
  }

  /** `SELECT ... FROM orders WHERE user_email = ?`, each row read back as an `Order`. */
  function OrdersOf(rows: seq<OrderRow>, email: string): (os: seq<Order>)
    ensures |os| <= |rows|
  {
    if |rows| == 0 then []
    else
      var rest := OrdersOf(rows[1..], email);
      var r := rows[0];
      if r.userEmail == email then [Order(r.productName, r.quantity, r.pricePerUnit)] + rest else rest
  }

  const DuplicateEmail := HttpError(BAD_REQUEST, "A user with such an email already exists.")
  const NoUser := HttpError(NOT_FOUND, "No user found.")
  predicate QuantitiesFit(orders: seq<Order>) {
    forall k :: 0 <= k < |orders| ==> FitsInteger(orders[k].quantity)
  }

  /**
   * `create_user`: a known email is refused with 400 and nothing is
   * inserted. A quantity that does not fit an SQLite INTEGER makes its
   * INSERT raise OverflowError: the request fails with 500, and the user
   * row inserted before it is never committed, so the tables are as they
   * were. Otherwise one user row and one order row per order, all under
   * that email, are committed and the input is returned unchanged.
   */
  function CreateUser(st: Store, user: User): (r: (Store, Result<User, HttpError>))
    ensures r.1 == Err(DuplicateEmail) <==> user.email in st.users
    ensures r.1 == Err(ServerError) <==> user.email !in st.users && !QuantitiesFit(user.orders)
    ensures r.1.Ok? <==> user.email !in st.users && QuantitiesFit(user.orders)
    ensures r.1.Err? ==> r.0 == st
    ensures r.1.Ok? ==> (r.1.value == user
      && r.0.users == st.users[user.email := user.name]
      && |r.0.orders| == |st.orders| + |user.orders|
      && r.0.orders[..|st.orders|] == st.orders
      && forall k :: |st.orders| <= k < |r.0.orders| ==> r.0.orders[k].userEmail == user.email)
    ensures ForeignKeys(st) ==> ForeignKeys(r.0)
  {
    if user.email in st.users then (st, Err(DuplicateEmail))
    else if !QuantitiesFit(user.orders) then (st, Err(ServerError))
    else
      var rows := RowsFor(user.email, user.orders);
      var st' := Store(st.users[user.email := user.name], st.orders + rows);
      assert forall k :: |st.orders| <= k < |st'.orders| ==> st'.orders[k] == rows[k - |st.orders|];
      (st', Ok(user))
  }

  /** `get_user`: 404 for an unknown email, otherwise the user with exactly the orders stored under that email. */
  function GetUser(st: Store, email: string): (r: Result<User, HttpError>)
    ensures r.Err? <==> email !in st.users
    ensures r.Err? ==> r.error == NoUser
    ensures r.Ok? ==> r.value == User(st.users[email], email, OrdersOf(st.orders, email))
  {
    if email !in st.users then Err(NoUser)
    else Ok(User(st.users[email], email, OrdersOf(st.orders, email)))
  }

  lemma {:induction false} OrdersOfAppend(a: seq<OrderRow>, b: seq<OrderRow>, email: string)
    ensures OrdersOf(a + b, email) == OrdersOf(a, email) + OrdersOf(b, email)
    decreases |a|
  {
    if |a| > 0 {
      assert (a + b)[1..] == a[1..] + b;
      OrdersOfAppend(a[1..], b, email);
    } else {
      assert a + b == b;
    }
  }

  lemma {:induction false} OrdersOfOwnRows(email: string, orders: seq<Order>)
    ensures OrdersOf(RowsFor(email, orders), email) == orders
    decreases |orders|
  {
    if |orders| > 0 {
      var rows := RowsFor(email, orders);
      assert rows[1..] == RowsFor(email, orders[1..]);
      OrdersOfOwnRows(email, orders[1..]);
      assert orders == [orders[0]] + orders[1..];
    }
  }

  lemma {:induction false} OrdersOfOtherRows(owner: string, orders: seq<Order>, email: string)
    requires owner != email
    ensures OrdersOf(RowsFor(owner, orders), email) == []
    decreases |orders|
  {
    if |orders| > 0 {
      assert RowsFor(owner, orders)[1..] == RowsFor(owner, orders[1..]);
      OrdersOfOtherRows(owner, orders[1..], email);
    }
  }

  lemma {:induction false} NoOrdersOfStranger(rows: seq<OrderRow>, users: map<string, string>, email: string)
    requires forall k :: 0 <= k < |rows| ==> rows[k].userEmail in users
    requires email !in users
    ensures OrdersOf(rows, email) == []
    decreases |rows|
  {
    if |rows| > 0 {
      NoOrdersOfStranger(rows[1..], users, email);
    }
  }

  /**
   * Reading back a user just created gives the user as sent, orders
   * included, when every stored order belongs to a stored user.
   */
  lemma CreateThenGet(st: Store, user: User)
    requires ForeignKeys(st)
    requires CreateUser(st, user).1.Ok?
    ensures GetUser(CreateUser(st, user).0, user.email) == Ok(user)
  {
    var rows := RowsFor(user.email, user.orders);
    OrdersOfAppend(st.orders, rows, user.email);
    NoOrdersOfStranger(st.orders, st.users, user.email);
    OrdersOfOwnRows(user.email, user.orders);
    var st' := CreateUser(st, user).0;
    assert st'.orders == st.orders + rows;
    assert OrdersOf(st'.orders, user.email) == [] + user.orders == user.orders;
  }

  /** Creating a user changes what reading any other email gives in no way. */
  lemma CreateLeavesOthers(st: Store, user: User, email: string)
    requires email != user.email
    ensures GetUser(CreateUser(st, user).0, email) == GetUser(st, email)
  {
    if user.email !in st.users && QuantitiesFit(user.orders) {
      var rows := RowsFor(user.email, user.orders);
      OrdersOfAppend(st.orders, rows, email);
      OrdersOfOtherRows(user.email, user.orders, email);
      assert OrdersOf(st.orders, email) + [] == OrdersOf(st.orders, email);
    }
  }
}
