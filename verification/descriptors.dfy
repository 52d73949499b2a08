/**
 * The shapes that the metadata transformation reads and writes.
 *
 * A JSON object is an ordered sequence of (key, value) entries in
 * `Object.keys` order. The input is taken as already parsed: every entry
 * that index.js dereferences holds an object of the expected shape.
 */
module Descriptors {
  import opened Wrappers

  /** A JSON object whose values are property descriptors. */
  datatype Props = Props(entries: seq<(string, Property)>)

  /** One property: optional description, optional enumeration, optional nested group. */
  datatype Property = Property(
    description: Option<string>,
    enumValues: Option<seq<string>>,
    properties: Option<Props>)

  datatype Event = Event(description: Option<string>)

  /** One parsed component metadata file. */
  datatype Component = Component(
    name: Option<string>,
    description: Option<string>,
    properties: Option<Props>,
    events: Option<seq<(string, Event)>>)

  /** An entry of an attribute's `values` list: `{name: v}`. */
  datatype Value = Value(name: string)

  /** One output attribute; absent fields are left out of the written JSON. */
  datatype Attribute = Attribute(
    name: string,
    description: Option<string>,
    values: Option<seq<Value>>)

  /** The record built for one metadata file. */
  datatype ComponentTag = ComponentTag(
    name: Option<string>,
    description: Option<string>,
    attributes: seq<Attribute>)

  /** The written document `{version: 1, tags}`. */
  datatype TagsDocument = TagsDocument(version: int, tags: seq<ComponentTag>)

  /** The TypeError raised when `transformUpperName` is given the empty string. */
  datatype Failure = EmptyIdentifier

  /** Every key of a JSON object is a non-empty string. */
  predicate NamedKeys<V>(entries: seq<(string, V)>) {
    forall i :: 0 <= i < |entries| ==> entries[i].0 != ""
  }
}
