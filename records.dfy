/** The rows of the three store tables as the views read them, and the
    writes the views issue to the store. */
module Records {
  import opened Strings
  import opened Values

  /** A row of `requests`. Quantities read from the store are whole numbers;
      `returnDate` is `None` for a null column. */
  datatype Request = Request(
    id: string,
    studentId: string,
    componentId: string,
    quantity: nat,
    status: string,
    reason: string,
    requestDate: string,
    returnDate: Option<string>)

  /** A row of `components` as held in a view's list. */
  datatype Component = Component(
    id: string,
    name: string,
    description: string,
    totalQuantity: Number,
    availableQuantity: Number)

  /** A row of `users`. */
  datatype User = User(id: string, name: string, email: string, role: string)

  /** The `{ name, email }` entry a view keeps per user id. */
  datatype StudentInfo = StudentInfo(name: string, email: string)

  /** The key and value of the id-keyed objects the views fill with
      `forEach`: component id to name, user id to name and e-mail. */
  function ComponentKey(c: Component): string { c.id }
  function ComponentName(c: Component): string { c.name }
  function UserKey(u: User): string { u.id }
  function UserContact(u: User): StudentInfo { StudentInfo(u.name, u.email) }

  /** The record the request form inserts into `requests`. */
  datatype NewRequest = NewRequest(
    studentId: string,
    componentId: string,
    quantity: Number,
    reason: string,
    status: string,
    returnDate: string)

  /** A write sent to the store. */
  datatype StoreWrite =
    | UpdateRequestStatus(requestId: string, status: string)
    | InsertRequest(row: NewRequest)
    | InsertComponent(name: string, description: string, total: Number, available: Number)
    | UpdateComponent(id: string, name: string, description: string, total: Number, available: Number)
    | DeleteComponent(id: string)

  /** The write goes to the `components` table. */
  predicate WritesComponents(w: StoreWrite) {
    w.InsertComponent? || w.UpdateComponent? || w.DeleteComponent?
  }

  /** No two requests share an id (the table's primary key). */
  predicate UniqueIds(rs: seq<Request>) {
    forall i, j :: 0 <= i < j < |rs| ==> rs[i].id != rs[j].id
  }
}
