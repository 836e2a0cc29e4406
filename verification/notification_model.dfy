/** The Notification document: required recipient, sender, type and content,
    the `type` and `relatedModel` enumerations, and `read` defaulting to false. */
module NotificationModel {
  import opened Base

  /** The values the schema admits for `type`. */
  datatype Kind = ConnectionRequest | ConnectionAccepted | NewMessage

  /** The values the schema admits for `relatedModel`: the collection that
      `relatedId` points into. */
  datatype RelatedModel = ConnectionDoc | MessageDoc

  datatype Notification = Notification(
    recipient: Id,
    sender: Id,
    kind: Kind,
    content: string,
    read: bool,
    relatedId: Option<Id>,
    relatedModel: Option<RelatedModel>)

  /** The stored spelling of a `type`. */
  function KindName(k: Kind): string {
    match k
    case ConnectionRequest => "connection_request"
    case ConnectionAccepted => "connection_accepted"
    case NewMessage => "message"
  }

  /** The `type` enum validator: a string is admitted exactly when it is the
      spelling of one of the three kinds. */
  function ParseKind(s: string): (r: Option<Kind>)
    ensures r.Some? ==> KindName(r.value) == s
    ensures r.None? ==> forall k: Kind :: KindName(k) != s
  {
    if s == "connection_request" then Some(ConnectionRequest)
    else if s == "connection_accepted" then Some(ConnectionAccepted)
    else if s == "message" then Some(NewMessage)
    else None
  }

  /** Every kind survives the round trip through its stored spelling. */
  lemma KindRoundTrip(k: Kind)
    ensures ParseKind(KindName(k)) == Some(k)
  {
  }

  function ModelName(m: RelatedModel): string {
    match m
    case ConnectionDoc => "Connection"
    case MessageDoc => "Message"
  }

  /** The `relatedModel` enum validator. */
  function ParseModel(s: string): (r: Option<RelatedModel>)
    ensures r.Some? ==> ModelName(r.value) == s
    ensures r.None? ==> forall m: RelatedModel :: ModelName(m) != s
  {
    if s == "Connection" then Some(ConnectionDoc)
    else if s == "Message" then Some(MessageDoc)
    else None
  }

  lemma ModelRoundTrip(m: RelatedModel)
    ensures ParseModel(ModelName(m)) == Some(m)
  {
  }

  /** The collection a notification of each kind points into. */
  function ModelFor(k: Kind): (m: RelatedModel)
    ensures m == MessageDoc <==> k == NewMessage
  {
    if k == NewMessage then MessageDoc else ConnectionDoc
  }

  /** A notification the schema accepts: the required `content` is not empty
      (the other required fields are always present in this model). */
  predicate Conforms(n: Notification) {
    n.content != ""
  }

  /** `Notification.create(...)`: the given fields, `read` at its default,
      refused when the required content is empty. */
  function Create(recipient: Id, sender: Id, kind: Kind, content: string,
                  relatedId: Option<Id>, relatedModel: Option<RelatedModel>): (r: Result<Notification>)
    ensures r.Ok? <==> content != ""
    ensures r.Err? ==> r.error == Invalid(ValidationFailed)
    ensures r.Ok? ==> Conforms(r.value) && !r.value.read
    ensures r.Ok? ==>
      r.value == Notification(recipient, sender, kind, content, false, relatedId, relatedModel)
  {
    if content == "" then Err(Invalid(ValidationFailed))
    else Ok(Notification(recipient, sender, kind, content, false, relatedId, relatedModel))
  }
}
