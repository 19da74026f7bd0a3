/**
 * The dashboard page's state and its event handlers as pure transitions.
 *
 * The page holds the food list, the object staged for editing and two
 * dialog flags. Each handler that talks to the server sends one request
 * and, once the request has succeeded, rewrites the list from the reply.
 * The reply is an input here (`RemoteResult`). A failed call only logs,
 * so the failure branch leaves the state exactly as it was.
 */
module Dashboard {
  import opened Records
  import opened FoodList

  /** The outcome of a remote call: the response data, or a failure. */
  datatype RemoteResult<+T> = Ok(data: T) | Err

  /**
   * The request a handler sends to the food resource. `Replace`, the PUT, carries the
   * `id` property of the editing target as the path segment; `None` is
   * the `undefined` that an unset target interpolates into the path.
   */
  datatype Request =
    | List
    | Create(body: Obj)
    | Replace(target: Option<Value>, body: Obj)
    | Remove(id: int)

  datatype State = State(
    foods: seq<Food>,
    editing: Obj,
    modalOpen: bool,
    editModalOpen: bool)

  /** What a handler does: the request it sends and the state it leaves. */
  datatype Step = Step(request: Request, next: State)

  /** The page as first rendered: no food, an empty editing object, both dialogs closed. */
  const Initial := State([], map[], false, false)

  /** Only the food list may differ between the two states. */
  predicate SameExceptFoods(s: State, t: State) {
    s.editing == t.editing && s.modalOpen == t.modalOpen && s.editModalOpen == t.editModalOpen
  }

  /** The startup fetch: the list becomes the server's snapshot. */
  function Load(s: State, resp: RemoteResult<seq<Food>>): (st: Step)
    ensures st.request == List
    ensures SameExceptFoods(s, st.next)
    ensures resp.Ok? ==> st.next.foods == resp.data
    ensures resp.Err? ==> st.next == s
  {
    Step(List, if resp.Ok? then s.(foods := resp.data) else s)
  }

  /**
   * Creating an item: post the draft with `available` forced to true and,
   * on success, append the item the server returned.
   */
  function HandleAddFood(s: State, draft: Obj, resp: RemoteResult<Food>): (st: Step)
    ensures st.request.Create? && st.request.body == CreateBody(draft)
    ensures SameExceptFoods(s, st.next)
    ensures resp.Ok? ==> |st.next.foods| == |s.foods| + 1
    ensures resp.Ok? ==> st.next.foods[..|s.foods|] == s.foods
    ensures resp.Ok? ==> st.next.foods[|s.foods|] == resp.data
    ensures resp.Err? ==> st.next == s
  {
    Step(Create(CreateBody(draft)),
         if resp.Ok? then s.(foods := Append(s.foods, resp.data)) else s)
  }

  /**
   * Updating the staged item: put the editing object overlaid with the
   * submitted data to the editing object's id and, on success, replace
   * every item whose id is the REPLY's id by the reply. The source's guard
   * on the editing object tests an object and so never fails; there is no
   * guard here.
   */
  function HandleUpdateFood(s: State, data: Obj, resp: RemoteResult<Food>): (st: Step)
    ensures st.request.Replace?
    ensures st.request.target == Get(s.editing, Id)
    ensures st.request.body == Merge(s.editing, data)
    ensures SameExceptFoods(s, st.next)
    ensures resp.Ok? ==> |st.next.foods| == |s.foods|
    ensures resp.Ok? ==> forall i :: 0 <= i < |s.foods| && s.foods[i].id == resp.data.id ==>
                           st.next.foods[i] == resp.data
    ensures resp.Ok? ==> forall i :: 0 <= i < |s.foods| && s.foods[i].id != resp.data.id ==>
                           st.next.foods[i] == s.foods[i]
    ensures resp.Err? ==> st.next == s
  {
    Step(Replace(Get(s.editing, Id), Merge(s.editing, data)),
         if resp.Ok? then s.(foods := ReplaceById(s.foods, resp.data)) else s)
  }

  /** Deleting an item: send the delete and, on success, drop every item with that id. */
  function HandleDeleteFood(s: State, id: int, resp: RemoteResult<()>): (st: Step)
    ensures st.request == Remove(id)
    ensures SameExceptFoods(s, st.next)
    ensures resp.Ok? ==> !HasId(st.next.foods, id)
    ensures resp.Ok? ==> |st.next.foods| == |s.foods| - CountId(s.foods, id)
    ensures resp.Ok? ==> forall f :: f in st.next.foods <==> f in s.foods && f.id != id
    ensures resp.Ok? ==> st.next.foods == RemoveId(s.foods, id)
    ensures resp.Err? ==> st.next == s
  {
    RemoveIdMembers(s.foods, id);
    Step(Remove(id), if resp.Ok? then s.(foods := RemoveId(s.foods, id)) else s)
  }

  /** A second successful load discards whatever the first one brought. */
  lemma LoadOverwrites(s: State, first: RemoteResult<seq<Food>>, snapshot: seq<Food>)
    ensures Load(Load(s, first).next, Ok(snapshot)).next == Load(s, Ok(snapshot)).next
  {
  }

  /** Flips the add dialog and nothing else. */
  function ToggleModal(s: State): (t: State)
    ensures t.modalOpen != s.modalOpen
    ensures t.foods == s.foods && t.editing == s.editing && t.editModalOpen == s.editModalOpen
  {
    s.(modalOpen := !s.modalOpen)
  }

  /** Flips the edit dialog and nothing else. */
  function ToggleEditModal(s: State): (t: State)
    ensures t.editModalOpen != s.editModalOpen
    ensures t.foods == s.foods && t.editing == s.editing && t.modalOpen == s.modalOpen
  {
    s.(editModalOpen := !s.editModalOpen)
  }

  /** Stages an item for editing and opens the edit dialog, whatever its state was. */
  function HandleEditFood(s: State, target: Obj): (t: State)
    ensures t.editing == target && t.editModalOpen
    ensures t.foods == s.foods && t.modalOpen == s.modalOpen
  {
    s.(editing := target, editModalOpen := true)
  }

  lemma ToggleModalInvolutive(s: State)
    ensures ToggleModal(ToggleModal(s)) == s
  {
  }

  lemma ToggleEditModalInvolutive(s: State)
    ensures ToggleEditModal(ToggleEditModal(s)) == s
  {
  }

  /** Unlike a toggle, requesting the same edit twice is the same as requesting it once. */
  lemma HandleEditFoodIdempotent(s: State, target: Obj)
    ensures HandleEditFood(HandleEditFood(s, target), target) == HandleEditFood(s, target)
  {
  }

  /**
   * After an edit request on item `f`, an update whose form data carries no
   * id goes to `f`'s id, its body keeps `f`'s id, and every other property
   * is the submitted one when present and `f`'s otherwise.
   */
  lemma UpdateTargetsEditedFood(s: State, f: Food, data: Obj, resp: RemoteResult<Food>)
    requires Id !in data
    ensures var req := HandleUpdateFood(HandleEditFood(s, FromFood(f)), data, resp).request;
            && req.target == Some(Num(f.id))
            && req.body[Id] == Num(f.id)
            && req.body.Keys == FromFood(f).Keys
            && (forall k :: k in data ==> req.body[k] == data[k])
            && (forall k :: k !in data ==> Get(req.body, k) == Get(FromFood(f), k))
  {
    EveryKeyInFood(f);
  }

  /**
   * With no edit requested, an update is still sent, to an undefined id,
   * and a successful reply is still applied to the list.
   */
  lemma UpdateWithoutTargetStillApplies(data: Obj, u: Food, foods: seq<Food>)
    ensures var st := HandleUpdateFood(Initial.(foods := foods), data, Ok(u));
            && st.request == Replace(None, data)
            && st.next.foods == ReplaceById(foods, u)
  {
    MergeEmpty(data);
  }

  /** The add and delete handlers undo each other when the server assigns a fresh id. */
  lemma AddThenDeleteRestores(s: State, draft: Obj, f: Food)
    requires !HasId(s.foods, f.id)
    ensures HandleDeleteFood(HandleAddFood(s, draft, Ok(f)).next, f.id, Ok(())).next == s
  {
    AppendThenRemove(s.foods, f);
  }

  /** After a successful delete, deleting the same id again leaves the state as it is. */
  lemma DeleteTwice(s: State, id: int, again: RemoteResult<()>)
    ensures var once := HandleDeleteFood(s, id, Ok(())).next;
            HandleDeleteFood(once, id, again).next == once
  {
    RemoveIdIdempotent(s.foods, id);
  }

  /** Replaying a successful update reply changes nothing further. */
  lemma UpdateTwice(s: State, data: Obj, u: Food)
    ensures var once := HandleUpdateFood(s, data, Ok(u)).next;
            HandleUpdateFood(once, data, Ok(u)).next == once
  {
    ReplaceByIdIdempotent(s.foods, u);
  }

  /**
   * As long as the server hands out unique ids (a fresh one on create),
   * every handler keeps the ids of the list unique.
   */
  lemma HandlersKeepIdsUnique(s: State, draft: Obj, data: Obj, id: int, f: Food, u: Food)
    requires UniqueIds(s.foods)
    requires !HasId(s.foods, f.id)
    ensures UniqueIds(HandleAddFood(s, draft, Ok(f)).next.foods)
    ensures UniqueIds(HandleUpdateFood(s, data, Ok(u)).next.foods)
    ensures UniqueIds(HandleDeleteFood(s, id, Ok(())).next.foods)
  {
    AppendKeepsUnique(s.foods, f);
    ReplaceKeepsUnique(s.foods, u);
    RemoveKeepsUnique(s.foods, id);
  }

  /**
   * With unique ids a successful update changes at most the one item with
   * the reply's id, and a successful delete shortens the list by one
   * exactly when the id was present.
   */
  lemma UniqueIdsUpdateAndDelete(s: State, data: Obj, u: Food, id: int)
    requires UniqueIds(s.foods)
    ensures var t := HandleUpdateFood(s, data, Ok(u)).next.foods;
            forall i, j :: 0 <= i < |s.foods| && 0 <= j < |s.foods| && t[i] != s.foods[i] && t[j] != s.foods[j] ==> i == j
    ensures |HandleDeleteFood(s, id, Ok(())).next.foods| == if HasId(s.foods, id) then |s.foods| - 1 else |s.foods|
  {
    RemoveIdUnique(s.foods, id);
  }

  /**
   * A session: load one pizza, add a burger, edit the pizza's price, then
   * delete the pizza.
   */
  lemma Session()
    ensures
      var pizza := Food(1, "Pizza", "", 10, true, "");
      var burger := Food(2, "Burger", "", 5, true, "");
      var pizza12 := pizza.(price := 12);
      var load := Load(Initial, Ok([pizza]));
      var add := HandleAddFood(load.next, map[Name := Text("Burger"), Price := Num(5)], Ok(burger));
      var s3 := HandleEditFood(add.next, FromFood(pizza));
      var up := HandleUpdateFood(s3, map[Price := Num(12)], Ok(pizza12));
      var del := HandleDeleteFood(up.next, 1, Ok(()));
      && load.request == List
      && load.next.foods == [pizza]
      && add.request == Create(map[Name := Text("Burger"), Price := Num(5), Available := Flag(true)])
      && add.next.foods == [pizza, burger]
      && up.request == Replace(Some(Num(1)), FromFood(pizza12))
      && up.next.foods == [pizza12, burger]
      && del.request == Remove(1)
      && del.next.foods == [burger]
  {
    var pizza := Food(1, "Pizza", "", 10, true, "");
    var burger := Food(2, "Burger", "", 5, true, "");
    var pizza12 := pizza.(price := 12);
    assert ReplaceById([pizza, burger], pizza12) == [pizza12, burger];
    assert RemoveId([pizza12, burger], 1) == [burger];
  }
}
