/** The server's in-memory store as it runs: the module-level `items` list and
    `currentId` counter, updated in place by one method per route handler.
    Each method is proved to do exactly what ItemModel.Serve specifies, so
    the lemmas proved there about Serve hold of it. */
module ItemServer {
  import opened ItemModel

  class Store {
    var items: seq<Item>
    var currentId: int

    /** The abstract value of the store. */
    function Snapshot(): State
      reads this
    {
      State(items, currentId)
    }

    ghost predicate Valid()
      reads this
    {
      WellFormed(Snapshot())
    }

    /** A new store: no items, counter at FirstId. */
    constructor ()
      ensures Valid() && Snapshot() == Initial
    {
      items := [];
      currentId := FirstId;
    }

    /** The linear search behind `find` and `findIndex`: the first position
        whose item has the requested id, or -1. */
    method FindIndex(param: Option<int>) returns (index: int)
      ensures index == IndexOf(items, param)
    {
      index := 0;
      while index < |items|
        invariant 0 <= index <= |items|
        invariant forall k :: 0 <= k < index ==> !Matches(items[k], param)
      {
        if Matches(items[index], param) {
          return;
        }
        index := index + 1;
      }
      index := -1;
    }

    /** POST /items */
    method Create(apiKey: Option<string>, name: string, description: string) returns (r: Response)
      requires Valid()
      modifies this
      ensures Valid()
      ensures (Snapshot(), r) == Serve(old(Snapshot()), apiKey, CreateItem(name, description))
    {
      if !Authorized(apiKey) {
        return Forbidden;
      }
      var newItem := Item(currentId, name, description);
      currentId := currentId + 1;
      items := items + [newItem];
      r := Created(newItem);
      ServeKeepsWellFormed(old(Snapshot()), apiKey, CreateItem(name, description));
    }

    /** GET /items */
    method ReadAll(apiKey: Option<string>) returns (r: Response)
      ensures (Snapshot(), r) == Serve(Snapshot(), apiKey, ItemModel.ReadAll)
    {
      if !Authorized(apiKey) {
        return Forbidden;
      }
      r := ItemList(items);
    }

    /** GET /items/:id */
    method ReadOne(apiKey: Option<string>, param: Option<int>) returns (r: Response)
      ensures (Snapshot(), r) == Serve(Snapshot(), apiKey, ItemModel.ReadOne(param))
    {
      if !Authorized(apiKey) {
        return Forbidden;
      }
      var i := FindIndex(param);
      if i == -1 {
        return NotFound;
      }
      r := Found(items[i]);
    }

    /** PUT /items/:id */
    method Update(apiKey: Option<string>, param: Option<int>, name: string, description: string)
      returns (r: Response)
      requires Valid()
      modifies this
      ensures Valid()
      ensures (Snapshot(), r) == Serve(old(Snapshot()), apiKey, UpdateItem(param, name, description))
    {
      if !Authorized(apiKey) {
        return Forbidden;
      }
      var i := FindIndex(param);
      if i == -1 {
        return NotFound;
      }
      var item := Item(items[i].id, name, description);
      items := items[i := item];
      r := Updated(item);
      ServeKeepsWellFormed(old(Snapshot()), apiKey, UpdateItem(param, name, description));
    }

    /** DELETE /items/:id */
    method Delete(apiKey: Option<string>, param: Option<int>) returns (r: Response)
      requires Valid()
      modifies this
      ensures Valid()
      ensures (Snapshot(), r) == Serve(old(Snapshot()), apiKey, DeleteItem(param))
    {
      if !Authorized(apiKey) {
        return Forbidden;
      }
      var index := FindIndex(param);
      if index == -1 {
        return NotFound;
      }
      items := items[..index] + items[index + 1..];
      r := Deleted;
      ServeKeepsWellFormed(old(Snapshot()), apiKey, DeleteItem(param));
    }

    /** GET /health, registered after the gate, so it is gated too. */
    method Health(apiKey: Option<string>) returns (r: Response)
      ensures (Snapshot(), r) == Serve(Snapshot(), apiKey, ItemModel.Health)
    {
      if !Authorized(apiKey) {
        return Forbidden;
      }
      r := HealthOk;
    }
  }
}
