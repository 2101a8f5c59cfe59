/** Decoded JSON values and the reference algorithm of RFC 7396. */
module JsonMergePatch {

  /** A JSON value; numbers, booleans and arrays are kept as opaque text because
      the profile API never looks inside them. */
  datatype Json =
    | JNull
    | JString(s: string)
    | JObject(members: map<string, Json>)
    | JOther(text: string)

  /** The MergePatch function of section 2 of RFC 7396. An absent target member
      is merged as null, which the RFC treats like any other non-object. */
  function MergePatch(target: Json, patch: Json): Json
    decreases patch
  {
    match patch
    case JObject(ms) =>
      var base := if target.JObject? then target.members else map[];
      JObject(map k | k in base.Keys + ms.Keys && !(k in ms && ms[k].JNull?) ::
                if k in ms then MergePatch(if k in base then base[k] else JNull, ms[k])
                else base[k])
    case _ => patch
  }
}
