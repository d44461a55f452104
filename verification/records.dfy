/** The two stored record kinds, the values their pickers offer, and the
    outcome of reading one key of the device's key-value store. */
module Records {

  datatype Option<T> = None | Some(value: T)

  /** The five price tiers, '$' through '$$$$$'. */
  datatype Price = Price1 | Price2 | Price3 | Price4 | Price5

  /** A star rating; the picker offers exactly 1 to 5. */
  type Rating = r: int | 1 <= r <= 5 witness 3

  /** A stored restaurant. An `id` of "" stands for a record stored without
      one (any falsy `id`). */
  datatype Restaurant = Restaurant(
    id: string,
    name: string,
    style: string,
    price: Price,
    delivery: bool,
    area: string,
    rating: Rating)

  /** A stored person. */
  datatype Person = Person(id: string, name: string)

  /** What reading one key of the store yields: nothing stored under the key,
      the decoded list, or a failure (the read or the decoding threw). */
  datatype Read<T> = Absent | Stored(value: T) | ReadFailed

  /** The ids of a list of people, in order. */
  function Ids(ps: seq<Person>): (r: seq<string>)
    ensures |r| == |ps| && forall i :: 0 <= i < |ps| ==> r[i] == ps[i].id
  {
    if ps == [] then [] else [ps[0].id] + Ids(ps[1..])
  }
}
