/** ABCI events as the application emits them. */
module Events {
  import opened Basics

  datatype Attribute = Attribute(key: Bytes, value: Bytes)

  datatype Event = Event(kind: Bytes, attributes: seq<Attribute>)
}
