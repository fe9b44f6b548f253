/**
 * `processProfileImage`: the Cloud Function triggered when an object is
 * written to the public-profile bucket. Its custom metadata decides
 * whether the image is resized into another object, a message is
 * published, or nothing happens. The resize itself (a stream through
 * sharp) and the publish are not modelled; the decision and the records
 * handed to them are.
 */
module Profiles {
  import opened Wrappers
  import Paths

  /** Custom object metadata: string keys to string values. */
  type Metadata = map<string, string>

  /** The storage event; `metadata` is `None` when the object has none. */
  datatype StorageEvent = StorageEvent(bucket: string, name: string, metadata: Option<Metadata>, contentType: Option<string>)

  /** The parsed `resize` option handed to sharp (its fields are not modelled). */
  datatype ResizeSpec = ResizeSpec(json: string)

  /** The metadata the resized object is written with. */
  datatype WriteOptions = WriteOptions(contentType: Option<string>, metadata: Metadata)

  /** The Pub/Sub message `{path, metadata}`. */
  datatype Message = Message(path: string, metadata: Metadata)

  datatype Action =
    | Resize(bucket: string, source: string, target: string, spec: ResizeSpec, options: WriteOptions)
    | Publish(topic: string, message: Message)
    | Nothing
    | TypeError     // destructuring `metadata` when the object has none
    | SyntaxError   // `JSON.parse` of a `resize` value that is not JSON

  const OutFilenameKey := "out-filename"
  const ResizeKey := "resize"
  const TopicKey := "pubsub-topic"

  /** JavaScript truthiness of an optional metadata value. */
  predicate Truthy(md: Metadata, key: string) {
    key in md && md[key] != ""
  }

  /** The metadata with `out-filename` and `resize` separated off (`...publishMetadata`). */
  function PublishMetadata(md: Metadata): (rest: Metadata)
    ensures rest.Keys == md.Keys - {OutFilenameKey, ResizeKey}
    ensures forall k :: k in rest ==> rest[k] == md[k]
  {
    md - {OutFilenameKey, ResizeKey}
  }

  /** The metadata with `pubsub-topic` separated off as well (`...messageMetadata`). */
  function MessageMetadata(md: Metadata): (rest: Metadata)
    ensures rest.Keys == md.Keys - {OutFilenameKey, ResizeKey, TopicKey}
    ensures forall k :: k in rest ==> rest[k] == md[k]
  {
    PublishMetadata(md) - {TopicKey}
  }

  /**
   * The decision of `processProfileImage`. `parse` stands for `JSON.parse`,
   * `None` meaning that it throws.
   */
  function Route(e: StorageEvent, parse: string -> Option<ResizeSpec>): (a: Action)
    ensures a == TypeError <==> e.metadata.None?
    ensures a.Resize? <==>
      e.metadata.Some? && Truthy(e.metadata.value, OutFilenameKey) && Truthy(e.metadata.value, ResizeKey) &&
      parse(e.metadata.value[ResizeKey]).Some?
    ensures a == SyntaxError <==>
      e.metadata.Some? && Truthy(e.metadata.value, OutFilenameKey) && Truthy(e.metadata.value, ResizeKey) &&
      parse(e.metadata.value[ResizeKey]).None?
    ensures a.Resize? ==>
      var md := e.metadata.value;
      a.bucket == e.bucket && a.source == e.name && a.target == md[OutFilenameKey] &&
      Some(a.spec) == parse(md[ResizeKey]) &&
      a.options == WriteOptions(e.contentType, PublishMetadata(md))
    ensures a.Publish? <==>
      e.metadata.Some? && !(Truthy(e.metadata.value, OutFilenameKey) && Truthy(e.metadata.value, ResizeKey)) &&
      Truthy(e.metadata.value, TopicKey)
    ensures a.Publish? ==>
      a.topic == e.metadata.value[TopicKey] &&
      a.message == Message(Paths.Join(e.bucket, e.name), MessageMetadata(e.metadata.value))
  {
    if e.metadata.None? then TypeError
    else
      var md := e.metadata.value;
      if Truthy(md, OutFilenameKey) && Truthy(md, ResizeKey) then
        match parse(md[ResizeKey])
        case None => SyntaxError
        case Some(spec) => Resize(e.bucket, e.name, md[OutFilenameKey], spec, WriteOptions(e.contentType, PublishMetadata(md)))
      else
        var rest := PublishMetadata(md);
        if Truthy(rest, TopicKey) then Publish(rest[TopicKey], Message(Paths.Join(e.bucket, e.name), MessageMetadata(md)))
        else Nothing
  }

  /** What a finished resize resolves with: `{...metadata, name: outFilename, bucket}`. */
  datatype ResizedObject = ResizedObject(contentType: Option<string>, metadata: Metadata, name: string, bucket: string)

  /** The object a resize action resolves with; ResolvedObjectOfEvent states it in terms of the event. */
  function Resolution(a: Action): ResizedObject
    requires a.Resize?
  {
    ResizedObject(a.options.contentType, a.options.metadata, a.target, a.bucket)
  }

  /**
   * A resize routed from an event resolves with the object it wrote: the
   * `out-filename` in the event's bucket, with the event's content type
   * and its metadata less the routing keys.
   */
  lemma ResolvedObjectOfEvent(e: StorageEvent, parse: string -> Option<ResizeSpec>)
    requires Route(e, parse).Resize?
    ensures e.metadata.Some? && OutFilenameKey in e.metadata.value
    ensures var r := Resolution(Route(e, parse));
      r.name == e.metadata.value[OutFilenameKey] && r.bucket == e.bucket && r.contentType == e.contentType &&
      r.metadata == PublishMetadata(e.metadata.value) &&
      OutFilenameKey !in r.metadata && ResizeKey !in r.metadata
  {
  }

  /** With none of the three keys the function does nothing; the routing keys never reach the outputs. */
  lemma RoutingKeysAreConsumed(e: StorageEvent, parse: string -> Option<ResizeSpec>)
    ensures e.metadata.Some? && OutFilenameKey !in e.metadata.value && TopicKey !in e.metadata.value ==>
      Route(e, parse) == Nothing
    ensures Route(e, parse).Resize? ==>
      OutFilenameKey !in Route(e, parse).options.metadata && ResizeKey !in Route(e, parse).options.metadata
    ensures Route(e, parse).Publish? ==>
      OutFilenameKey !in Route(e, parse).message.metadata && ResizeKey !in Route(e, parse).message.metadata &&
      TopicKey !in Route(e, parse).message.metadata
  {
  }

  /** A half-set resize (only one of `out-filename` and `resize`) falls through to publishing, without either key. */
  lemma HalfResizeFallsThrough(bucket: string, name: string, topic: string, parse: string -> Option<ResizeSpec>)
    requires topic != ""
    ensures
      var md := map[OutFilenameKey := "small.jpg", TopicKey := topic];
      Route(StorageEvent(bucket, name, Some(md), None), parse) ==
        Publish(topic, Message(Paths.Join(bucket, name), map[]))
  {
    var md := map[OutFilenameKey := "small.jpg", TopicKey := topic];
    assert MessageMetadata(md) == map[];
  }
}
