/**
 * Records of the food menu dashboard.
 *
 * Two shapes of data meet in the dashboard. The server sends back fully
 * formed food items (`Food`). The page itself builds and spreads plain
 * JavaScript objects: the item staged for editing, the data a form submits,
 * and the request bodies. Such an object is modelled as a finite map from
 * property name to value (`Obj`), because the object spread `{...a, ...b}`
 * is then exactly the right-biased map union `a + b`.
 */
module Records {

  datatype Option<+T> = None | Some(value: T)

  /** The properties a food object can carry. */
  datatype Key = Id | Name | Description | Price | Available | Image

  /** A property value: a JavaScript number, string or boolean. */
  datatype Value = Num(n: int) | Text(s: string) | Flag(b: bool)

  /** A plain object whose properties may be present or absent. */
  type Obj = map<Key, Value>

  /**
   * A food item as the server returns it. The price is a JavaScript number
   * that the page only carries and never computes with, so an `int` stands in.
   */
  datatype Food = Food(
    id: int,
    name: string,
    description: string,
    price: int,
    available: bool,
    image: string)

  /** The object a food item is at run time, with every property present. */
  function FromFood(f: Food): (o: Obj)
    ensures o.Keys == {Id, Name, Description, Price, Available, Image}
    ensures o[Id] == Num(f.id) && o[Price] == Num(f.price)
    ensures o[Name] == Text(f.name) && o[Description] == Text(f.description)
    ensures o[Available] == Flag(f.available) && o[Image] == Text(f.image)
  {
    map[Id := Num(f.id), Name := Text(f.name), Description := Text(f.description),
        Price := Num(f.price), Available := Flag(f.available), Image := Text(f.image)]
  }

  /** A food item's object carries every property there is. */
  lemma EveryKeyInFood(f: Food)
    ensures forall k: Key :: k in FromFood(f)
  {
    forall k: Key
      ensures k in FromFood(f)
    {
      match k
      case Id => case Name => case Description => case Price => case Available => case Image =>
    }
  }

  /** Reads a property back; `None` is JavaScript's `undefined`. */
  function Get(o: Obj, k: Key): (r: Option<Value>)
    ensures r.Some? <==> k in o
    ensures r.Some? ==> r.value == o[k]
  {
    if k in o then Some(o[k]) else None
  }

  /** Reading a food item's object back gives the item's own fields. */
  function AsFood(o: Obj): (r: Option<Food>)
    ensures r.Some? ==> FromFood(r.value) == o
  {
    if && Id in o && o[Id].Num?
       && Name in o && o[Name].Text?
       && Description in o && o[Description].Text?
       && Price in o && o[Price].Num?
       && Available in o && o[Available].Flag?
       && Image in o && o[Image].Text?
       && o.Keys == {Id, Name, Description, Price, Available, Image}
    then Some(Food(o[Id].n, o[Name].s, o[Description].s, o[Price].n, o[Available].b, o[Image].s))
    else None
  }

  lemma FoodObjectRoundTrip(f: Food)
    ensures AsFood(FromFood(f)) == Some(f)
  {
  }

  /**
   * The object spread `{...base, ...over}`: every property `over` carries
   * wins, every other property of `base` is kept, and nothing else appears.
   */
  function Merge(base: Obj, over: Obj): (r: Obj)
    ensures r.Keys == base.Keys + over.Keys
    ensures forall k :: k in over ==> r[k] == over[k]
    ensures forall k :: k in base && k !in over ==> r[k] == base[k]
  {
    base + over
  }

  /** Spreading an empty object on either side changes nothing. */
  lemma MergeEmpty(o: Obj)
    ensures Merge(map[], o) == o && Merge(o, map[]) == o
  {
  }

  /**
   * The body of the create request, `{...draft, available: true}`: the
   * draft with `available` forced to true and every other property passed
   * through unchanged.
   */
  function CreateBody(draft: Obj): (r: Obj)
    ensures r.Keys == draft.Keys + {Available}
    ensures r[Available] == Flag(true)
    ensures forall k :: k in draft && k != Available ==> r[k] == draft[k]
  {
    Merge(draft, map[Available := Flag(true)])
  }
}
