/** JSON values. A number is the text JSON.stringify prints for it; object members
    keep the order in which the object lists them. */
module JsonValues {
  datatype Json =
    | Null
    | Bool(b: bool)
    | Number(text: string)
    | Text(s: string)
    | Array(items: seq<Json>)
    | Object(members: seq<Member>)

  datatype Member = Member(key: string, value: Json)
}
