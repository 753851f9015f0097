/** The two tables of the database that the billing code touches. */
module Database {
  import opened Common

  type UserId = string

  /** A row of the purchase table. `id` and `date` are assigned by the
      database when the row is created. */
  datatype Purchase = Purchase(
    id: string,
    userId: UserId,
    stripeId: string,
    invoiceId: Option<string>,
    description: string,
    amount: int,
    currency: string,
    date: int)

  /** The database: one balance row per user (keyed by user id) and the
      purchase table in insertion order. */
  class Store {
    var balances: map<UserId, int>
    var purchases: seq<Purchase>

    /** No operation of the billing code ever leaves a negative balance. */
    ghost predicate Valid()
      reads this
    {
      forall u :: u in balances ==> balances[u] >= 0
    }

    constructor ()
      ensures Valid()
      ensures balances == map[] && purchases == []
    {
      balances := map[];
      purchases := [];
    }
  }
}
