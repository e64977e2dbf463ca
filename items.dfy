/** Values and the pure specification of the in-memory item service:
    the items it stores, the requests its routes accept, the API-key gate
    that runs in front of every route, and one function, Serve, that says
    what the whole application does with one request. */
module ItemModel {

  datatype Option<+T> = None | Some(value: T)

  /** The shared secret every request must present in its `x-api-key` header. */
  const ApiKey: string := "123456"

  /** The first id the counter hands out. */
  const FirstId: int := 1

  /** One stored record `{id, name, description}`. */
  datatype Item = Item(id: int, name: string, description: string)

  /** The module-level state: the list of items and the id counter. */
  datatype State = State(items: seq<Item>, currentId: int)

  /** The state the service starts in: no items, counter at 1. */
  const Initial: State := State([], FirstId)

  /** The routes. A path parameter `:id` arrives already passed through
      `parseInt`: `None` stands for `NaN`, which equals no id. */
  datatype Request =
    | CreateItem(name: string, description: string)   // POST /items
    | ReadAll                                         // GET /items
    | ReadOne(param: Option<int>)                     // GET /items/:id
    | UpdateItem(param: Option<int>, name: string, description: string)  // PUT /items/:id
    | DeleteItem(param: Option<int>)                  // DELETE /items/:id
    | Health                                          // GET /health

  /** What a handler answers, without the JSON body text. */
  datatype Response =
    | Forbidden              // 403, from the API-key gate
    | Created(item: Item)    // 201
    | ItemList(items: seq<Item>)
    | Found(item: Item)
    | Updated(item: Item)
    | Deleted
    | NotFound               // 404
    | HealthOk

  /** The HTTP status code each response is sent with. */
  function Status(r: Response): int
  {
    match r
    case Forbidden => 403
    case Created(_) => 201
    case NotFound => 404
    case _ => 200
  }

  /** The gate lets a request through only when the header is present and
      equal to the key, character for character. */
  predicate Authorized(apiKey: Option<string>)
  {
    apiKey == Some(ApiKey)
  }

  /** The search predicate `i.id === id`; `NaN` (None) matches nothing. */
  predicate Matches(item: Item, param: Option<int>)
  {
    param == Some(item.id)
  }

  /** `findIndex`: the first position whose item matches, or -1. */
  function IndexOf(items: seq<Item>, param: Option<int>): (r: int)
    ensures -1 <= r < |items|
    ensures r == -1 <==> forall k :: 0 <= k < |items| ==> !Matches(items[k], param)
    ensures 0 <= r ==> Matches(items[r], param)
    ensures 0 <= r ==> forall k :: 0 <= k < r ==> !Matches(items[k], param)
  {
    if |items| == 0 then -1
    else if Matches(items[0], param) then 0
    else
      var r := IndexOf(items[1..], param);
      assert forall k :: 1 <= k < |items| ==> items[k] == items[1..][k - 1];
      if r == -1 then -1 else r + 1
  }

  /** Ids strictly increase along the list (so they are pairwise distinct). */
  predicate StrictlyIncreasing(items: seq<Item>)
  {
    forall i, j :: 0 <= i < j < |items| ==> items[i].id < items[j].id
  }

  /** The invariant of the store: the counter is at least 1, every stored id
      lies in [1, currentId), and the list is in strictly increasing id order. */
  predicate WellFormed(s: State)
  {
    && s.currentId >= FirstId
    && StrictlyIncreasing(s.items)
    && forall i :: 0 <= i < |s.items| ==> FirstId <= s.items[i].id < s.currentId
  }

  /** The whole application on one request whose body the JSON parser has
      accepted: the gate first, then the route. */
  function Serve(s: State, apiKey: Option<string>, req: Request): (State, Response)
  {
    if !Authorized(apiKey) then (s, Forbidden)
    else match req
      case CreateItem(name, description) =>
        var item := Item(s.currentId, name, description);
        (State(s.items + [item], s.currentId + 1), Created(item))
      case ReadAll => (s, ItemList(s.items))
      case ReadOne(param) =>
        var i := IndexOf(s.items, param);
        if i == -1 then (s, NotFound) else (s, Found(s.items[i]))
      case UpdateItem(param, name, description) =>
        var i := IndexOf(s.items, param);
        if i == -1 then (s, NotFound)
        else
          var item := Item(s.items[i].id, name, description);
          (s.(items := s.items[i := item]), Updated(item))
      case DeleteItem(param) =>
        var i := IndexOf(s.items, param);
        if i == -1 then (s, NotFound)
        else (s.(items := s.items[..i] + s.items[i + 1..]), Deleted)
      case Health => (s, HealthOk)
  }

  lemma InitialWellFormed()
    ensures WellFormed(Initial) && Initial.items == []
  {
  }

  /** In a well-formed list at most one item carries a given id. */
  lemma UniqueMatch(items: seq<Item>, param: Option<int>, j: int)
    requires StrictlyIncreasing(items)
    requires 0 <= j < |items| && Matches(items[j], param)
    ensures IndexOf(items, param) == j
    ensures forall k :: 0 <= k < |items| && k != j ==> !Matches(items[k], param)
  {
  }

  /** Every handler, and the gate, keeps the invariant. */
  lemma ServeKeepsWellFormed(s: State, apiKey: Option<string>, req: Request)
    requires WellFormed(s)
    ensures WellFormed(Serve(s, apiKey, req).0)
  {
  }

  /** Only an admitted create moves the counter, and by exactly one; in
      particular a delete leaves it where it is. */
  lemma ServeCounter(s: State, apiKey: Option<string>, req: Request)
    ensures Serve(s, apiKey, req).0.currentId
         == s.currentId + (if Authorized(apiKey) && req.CreateItem? then 1 else 0)
  {
  }

  /** A request (whose body the JSON parser accepted) without the exact key
      gets Forbidden and changes nothing, whatever the route, `/health`
      included. */
  lemma RejectedRequest(s: State, apiKey: Option<string>, req: Request)
    requires !Authorized(apiKey)
    ensures Serve(s, apiKey, req) == (s, Forbidden)
    ensures Status(Serve(s, apiKey, req).1) == 403
  {
  }

  /** Create appends an item carrying the old counter value, leaves every
      earlier item as it was, and the new id is larger than every stored id. */
  lemma CreateAppendsFreshItem(s: State, apiKey: Option<string>, name: string, description: string)
    requires WellFormed(s) && Authorized(apiKey)
    ensures var (t, r) := Serve(s, apiKey, CreateItem(name, description));
      && r == Created(Item(s.currentId, name, description))
      && Status(r) == 201
      && t.currentId == s.currentId + 1
      && |t.items| == |s.items| + 1
      && t.items[..|s.items|] == s.items
      && t.items[|s.items|] == r.item
      && forall k :: 0 <= k < |s.items| ==> s.items[k].id < r.item.id
  {
  }

  /** Read-all answers with the current list, in insertion order, and
      changes nothing. */
  lemma ReadAllReturnsList(s: State, apiKey: Option<string>)
    requires Authorized(apiKey)
    ensures Serve(s, apiKey, ReadAll) == (s, ItemList(s.items))
  {
  }

  /** Read-one answers with the one item whose id equals the parameter, or
      NotFound when there is none; `NaN` is always NotFound. */
  lemma ReadOneFindsUniqueItem(s: State, apiKey: Option<string>, param: Option<int>)
    requires WellFormed(s) && Authorized(apiKey)
    ensures Serve(s, apiKey, ReadOne(param)).0 == s
    ensures var r := Serve(s, apiKey, ReadOne(param)).1;
      && (r == NotFound <==> forall k :: 0 <= k < |s.items| ==> !Matches(s.items[k], param))
      && (r.Found? <==> exists k :: 0 <= k < |s.items| && Matches(s.items[k], param))
      && (forall k :: 0 <= k < |s.items| && Matches(s.items[k], param) ==> r == Found(s.items[k]))
      && (r.NotFound? || r.Found?)
    ensures param.None? ==> Serve(s, apiKey, ReadOne(param)).1 == NotFound
  {
  }

  /** Update on an existing id rewrites the name and description of that one
      item, keeps its id, and leaves the length, the order, every other item
      and the counter as they were; on a missing id nothing changes. */
  lemma UpdateRewritesOneItem(s: State, apiKey: Option<string>, param: Option<int>,
                              name: string, description: string)
    requires WellFormed(s) && Authorized(apiKey)
    ensures forall j :: 0 <= j < |s.items| && Matches(s.items[j], param) ==>
      var (t, r) := Serve(s, apiKey, UpdateItem(param, name, description));
      && r == Updated(Item(s.items[j].id, name, description))
      && t.currentId == s.currentId
      && |t.items| == |s.items|
      && t.items[j] == r.item
      && forall k :: 0 <= k < |s.items| && k != j ==> t.items[k] == s.items[k]
    ensures (forall k :: 0 <= k < |s.items| ==> !Matches(s.items[k], param)) ==>
      Serve(s, apiKey, UpdateItem(param, name, description)) == (s, NotFound)
  {
  }

  /** Delete on an existing id removes exactly that item: the others keep
      their order, the counter stays, and no remaining item has that id;
      on a missing id nothing changes. */
  lemma DeleteRemovesOneItem(s: State, apiKey: Option<string>, param: Option<int>)
    requires WellFormed(s) && Authorized(apiKey)
    ensures forall j :: 0 <= j < |s.items| && Matches(s.items[j], param) ==>
      var (t, r) := Serve(s, apiKey, DeleteItem(param));
      && r == Deleted
      && t.currentId == s.currentId
      && t.items == s.items[..j] + s.items[j + 1..]
      && |t.items| == |s.items| - 1
      && forall k :: 0 <= k < |t.items| ==> !Matches(t.items[k], param)
    ensures (forall k :: 0 <= k < |s.items| ==> !Matches(s.items[k], param)) ==>
      Serve(s, apiKey, DeleteItem(param)) == (s, NotFound)
  {
  }

  /** After a delete of an existing id, reading that id answers NotFound. */
  lemma DeleteThenReadNotFound(s: State, apiKey: Option<string>, id: int)
    requires WellFormed(s) && Authorized(apiKey)
    ensures var t := Serve(s, apiKey, DeleteItem(Some(id))).0;
      Serve(t, apiKey, ReadOne(Some(id))) == (t, NotFound)
  {
  }
}
