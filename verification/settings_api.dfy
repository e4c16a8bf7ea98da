/** The settings endpoint (`SettingsViewSet`): the settings table is a
    singleton. A create is always refused, and every retrieval or update
    works on the row with primary key 1, creating it from the model's
    defaults the first time it is needed, whatever key the request named. */
module SettingsApi {

  /** A settings row, without its key. Only the currency is read elsewhere
      in the system (the salary page takes its symbol from it); the other
      columns travel unchanged and are left out. */
  datatype Settings = Settings(currency: string)

  /** The settings table, by primary key. */
  type Store = map<int, Settings>

  /** The key of the one settings row. */
  const SingletonPk: int := 1

  /** No row other than the singleton exists. */
  predicate SingleRow(store: Store) {
    forall k :: k in store ==> k == SingletonPk
  }

  // ---------------------------------------------------------------------
  // create

  const CreateRefused: string :=
    "Creating new settings is not allowed. Update the existing settings instead."

  datatype Response = Response(status: int, detail: string)

  /** `SettingsViewSet.create`: refused whatever the body says; the table
      is not touched. */
  function Create(store: Store, body: Settings): (r: (Response, Store))
    ensures r.0.status == 403 && r.0.detail == CreateRefused
    ensures r.1 == store
  {
    (Response(403, CreateRefused), store)
  }

  /** Because the body is never read, two creates with different bodies are
      indistinguishable. */
  lemma CreateIgnoresBody(store: Store, a: Settings, b: Settings)
    ensures Create(store, a) == Create(store, b)
  {
  }

  // ---------------------------------------------------------------------
  // get_object

  /** `SettingsViewSet.get_object`: `get_or_create(pk=1)`. The key in the
      URL is ignored; `defaults` holds the model's default column values
      used when the row has to be created. */
  function GetObject(store: Store, defaults: Settings, requestedPk: int): (r: (Settings, Store))
    ensures SingletonPk in r.1 && r.1[SingletonPk] == r.0
    ensures SingletonPk in store ==> r.0 == store[SingletonPk] && r.1 == store
    ensures SingletonPk !in store ==> r.0 == defaults && r.1 == store[SingletonPk := defaults]
    ensures forall k :: k in store ==> k in r.1 && r.1[k] == store[k]
    ensures forall k :: k in r.1 ==> k in store || k == SingletonPk
  {
    if SingletonPk in store then (store[SingletonPk], store)
    else (defaults, store[SingletonPk := defaults])
  }

  /** The key the request named plays no part. */
  lemma GetObjectIgnoresRequestedPk(store: Store, defaults: Settings, p: int, q: int)
    ensures GetObject(store, defaults, p) == GetObject(store, defaults, q)
  {
  }

  /** Retrieving twice is retrieving once: the second call sees the row the
      first one created and creates nothing. */
  lemma GetObjectIdempotent(store: Store, defaults: Settings, p: int, q: int)
    ensures var (row1, store1) := GetObject(store, defaults, p);
      var (row2, store2) := GetObject(store1, defaults, q);
      row2 == row1 && store2 == store1
  {
  }

  // ---------------------------------------------------------------------
  // update

  /** `update` goes through `get_object`, so a new currency always lands on
      the singleton row. */
  function Update(store: Store, defaults: Settings, requestedPk: int, currency: string): (r: (Settings, Store))
    ensures r.0.currency == currency
    ensures SingletonPk in r.1 && r.1[SingletonPk] == r.0
    ensures forall k :: k in r.1 ==> k in store || k == SingletonPk
    ensures forall k :: k in store && k != SingletonPk ==> k in r.1 && r.1[k] == store[k]
  {
    var (row, store1) := GetObject(store, defaults, requestedPk);
    var row' := row.(currency := currency);
    (row', store1[SingletonPk := row'])
  }

  /** None of the three operations can make a second settings row. */
  lemma OperationsKeepSingleRow(store: Store, defaults: Settings, p: int, body: Settings, currency: string)
    requires SingleRow(store)
    ensures SingleRow(Create(store, body).1)
    ensures SingleRow(GetObject(store, defaults, p).1)
    ensures SingleRow(Update(store, defaults, p, currency).1)
  {
  }

  /** A read after an update shows the update, whichever keys the two
      requests named. */
  lemma ReadAfterUpdate(store: Store, defaults: Settings, p: int, q: int, currency: string)
    ensures var (_, store1) := Update(store, defaults, p, currency);
      GetObject(store1, defaults, q).0.currency == currency
  {
  }
}
