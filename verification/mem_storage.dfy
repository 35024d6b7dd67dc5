/** `MemStorage`: the customer store the bundled server keeps in memory, a
    map from key to customer that iterates in insertion order. Unlike the
    database it checks no email for uniqueness, and a Stripe id that is
    absent or empty leaves the stored one in place. */
module MemStore {
  import opened Wrappers
  import opened Schema
  import opened Tables

  /** The map's entries in insertion order, and the next fresh key. */
  datatype Mem = Mem(customers: seq<Customer>, nextId: Id)

  const EmptyMem := Mem([], 0)

  function CustomerKey(c: Customer): Id { c.id }
  function CustomerEmail(c: Customer): string { c.email }

  /** One entry per key, every key below the counter. */
  predicate Valid(m: Mem) {
    Distinct(m.customers, CustomerKey) && forall i :: 0 <= i < |m.customers| ==> m.customers[i].id < m.nextId
  }

  /** `getCustomer`: the entry under the key, which in a valid map is the
      only customer with that key. */
  function GetCustomer(m: Mem, id: Id): (r: Option<Customer>)
    ensures r.Some? ==> r.value in m.customers && r.value.id == id
    ensures r.None? <==> forall j :: 0 <= j < |m.customers| ==> m.customers[j].id != id
    ensures Valid(m) ==> forall j :: 0 <= j < |m.customers| && m.customers[j].id == id ==> r == Some(m.customers[j])
  {
    match FindKey(m.customers, CustomerKey, id)
    case None => None
    case Some(k) =>
      assert Valid(m) ==> forall j :: 0 <= j < |m.customers| && m.customers[j].id == id ==> j == k by {
        if Valid(m) {
          forall j | 0 <= j < |m.customers| && m.customers[j].id == id ensures j == k {
            DistinctFindKey(m.customers, CustomerKey, j);
          }
        }
      }
      Some(m.customers[k])
  }

  /** `getCustomerByEmail`: the earliest inserted customer with this email. */
  function GetCustomerByEmail(m: Mem, email: string): (r: Option<Customer>)
    ensures r.Some? ==> r.value.email == email
    ensures r.Some? ==> exists k :: 0 <= k < |m.customers| && m.customers[k] == r.value
                                   && forall j :: 0 <= j < k ==> m.customers[j].email != email
    ensures r.None? <==> forall j :: 0 <= j < |m.customers| ==> m.customers[j].email != email
  {
    match FindKey(m.customers, CustomerEmail, email)
    case None => None
    case Some(k) => Some(m.customers[k])
  }

  /** `createCustomer`: always succeeds, under a fresh key, with no Stripe ids. */
  function CreateCustomer(m: Mem, c: NewCustomer, now: int): (r: (Mem, Customer))
    ensures r.1 == Customer(m.nextId, c.email, c.pcnNumber, c.vehicleRegistration, None, None, None, now)
    ensures r.0.customers == m.customers + [r.1] && r.0.nextId == m.nextId + 1
  {
    var row := Customer(m.nextId, c.email, c.pcnNumber, c.vehicleRegistration, None, None, None, now);
    (Mem(m.customers + [row], m.nextId + 1), row)
  }

  /** `x || fallback` for an optional string: an absent or empty value gives
      way to the fallback. */
  function OrElse(x: Option<string>, fallback: Option<string>): (r: Option<string>)
    ensures x.Some? && x.value != [] ==> r == x
    ensures x.None? || x.value == [] ==> r == fallback
  {
    if x.Some? && x.value != [] then x else fallback
  }

  /** `updateCustomerStripeInfo`: "Customer not found" for an unknown key;
      otherwise the customer id is written as given and each other id only
      when it is non-empty. The entry keeps its place in the map. */
  function UpdateCustomerStripeInfo(m: Mem, id: Id, customerRef: string, sub: Option<string>, sched: Option<string>)
    : (r: Result<(Mem, Customer), string>)
    ensures r.Failure? <==> GetCustomer(m, id).None?
    ensures r.Failure? ==> r.error == "Customer not found"
    ensures r.Success? ==> var (m', row) := r.value; var prev := GetCustomer(m, id).value;
      row.id == id && row.email == prev.email && row.pcnNumber == prev.pcnNumber
      && row.vehicleRegistration == prev.vehicleRegistration && row.createdAt == prev.createdAt
      && row.stripeCustomerId == Some(customerRef)
      && (sub.Some? && sub.value != [] ==> row.stripeSubscriptionId == sub)
      && (sub.None? || sub.value == [] ==> row.stripeSubscriptionId == prev.stripeSubscriptionId)
      && (sched.Some? && sched.value != [] ==> row.stripeSubscriptionScheduleId == sched)
      && (sched.None? || sched.value == [] ==> row.stripeSubscriptionScheduleId == prev.stripeSubscriptionScheduleId)
      && exists k :: 0 <= k < |m.customers| && m.customers[k] == prev && m' == m.(customers := m.customers[k := row])
  {
    match FindKey(m.customers, CustomerKey, id)
    case None => Failure("Customer not found")
    case Some(k) =>
      var prev := m.customers[k];
      var row := prev.(stripeCustomerId := Some(customerRef),
                       stripeSubscriptionId := OrElse(sub, prev.stripeSubscriptionId),
                       stripeSubscriptionScheduleId := OrElse(sched, prev.stripeSubscriptionScheduleId));
      Success((m.(customers := m.customers[k := row]), row))
  }

  // ---------------------------------------------------------------------------
  // Properties

  lemma CreateCustomerValid(m: Mem, c: NewCustomer, now: int)
    requires Valid(m)
    ensures Valid(CreateCustomer(m, c, now).0)
  {
    DistinctAppend(m.customers, CreateCustomer(m, c, now).1, CustomerKey);
  }

  /** After `createCustomer` the key finds the new customer. */
  lemma CreateThenGet(m: Mem, c: NewCustomer, now: int)
    requires Valid(m)
    ensures GetCustomer(CreateCustomer(m, c, now).0, m.nextId) == Some(CreateCustomer(m, c, now).1)
  {
    var (m', row) := CreateCustomer(m, c, now);
    CreateCustomerValid(m, c, now);
    assert m'.customers[|m.customers|] == row;
    DistinctFindKey(m'.customers, CustomerKey, |m.customers|);
  }

  /** A second customer with an email already on file is stored, but the
      email lookup keeps answering with the first one. */
  lemma DuplicateEmailShadowed(m: Mem, c: NewCustomer, now: int)
    requires GetCustomerByEmail(m, c.email).Some?
    ensures GetCustomerByEmail(CreateCustomer(m, c, now).0, c.email) == GetCustomerByEmail(m, c.email)
    ensures |CreateCustomer(m, c, now).0.customers| == |m.customers| + 1
  {
    var m' := CreateCustomer(m, c, now).0;
    var k := FindKey(m.customers, CustomerEmail, c.email).value;
    assert m'.customers[k] == m.customers[k];
    assert forall j :: 0 <= j < k ==> m'.customers[j] == m.customers[j];
  }

  /** Updating keeps every key and so the store's shape. */
  lemma UpdateValid(m: Mem, id: Id, customerRef: string, sub: Option<string>, sched: Option<string>)
    requires Valid(m) && UpdateCustomerStripeInfo(m, id, customerRef, sub, sched).Success?
    ensures Valid(UpdateCustomerStripeInfo(m, id, customerRef, sub, sched).value.0)
  {
    var k := FindKey(m.customers, CustomerKey, id).value;
    DistinctReplace(m.customers, k, UpdateCustomerStripeInfo(m, id, customerRef, sub, sched).value.1, CustomerKey);
  }

  /** Repeating an update with the same ids changes nothing further. */
  lemma UpdateIdempotent(m: Mem, id: Id, customerRef: string, sub: Option<string>, sched: Option<string>)
    requires Valid(m) && UpdateCustomerStripeInfo(m, id, customerRef, sub, sched).Success?
    ensures var once := UpdateCustomerStripeInfo(m, id, customerRef, sub, sched).value;
      UpdateCustomerStripeInfo(once.0, id, customerRef, sub, sched) == Success(once)
  {
    var k := FindKey(m.customers, CustomerKey, id).value;
    var once := UpdateCustomerStripeInfo(m, id, customerRef, sub, sched).value;
    UpdateValid(m, id, customerRef, sub, sched);
    assert once.0.customers[k] == once.1;
    DistinctFindKey(once.0.customers, CustomerKey, k);
    var row := once.1;
    assert OrElse(sub, row.stripeSubscriptionId) == row.stripeSubscriptionId;
    assert OrElse(sched, row.stripeSubscriptionScheduleId) == row.stripeSubscriptionScheduleId;
    assert once.0.customers[k := row] == once.0.customers;
  }
}
