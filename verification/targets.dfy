/** What the two target games share: removing a clicked target from the screen. */
module Targets {

  /** `targets.filter(t => t.id !== id)`, for targets whose id `idOf` reads: the
      targets with another id, in their order. */
  function Without<T(!new)>(ts: seq<T>, id: string, idOf: T -> string): (r: seq<T>)
    ensures |r| <= |ts|
    ensures forall t :: t in r <==> t in ts && idOf(t) != id
    ensures (forall t :: t in ts ==> idOf(t) != id) ==> r == ts
  {
    if |ts| == 0 then []
    else if idOf(ts[0]) == id then Without(ts[1..], id, idOf)
    else [ts[0]] + Without(ts[1..], id, idOf)
  }
}
