/**
 * The decoded webhook payload and the filter configuration of the word
 * moderator, as the handler in slack-moderator-words/events.go uses them.
 * Field names follow the Go records (`Type`, `Event`, `ThreadTS`, ...).
 */
module Model {

  /** The envelope type of the one-time endpoint verification handshake. */
  const UrlVerification: string := "url_verification"

  /** The nested event type sent when a public channel is created. */
  const ChannelCreatedType: string := "channel_created"

  /**
   * A JSON value held in an untyped field. The handler only distinguishes
   * `null`, a string, and an object with (possibly absent, hence empty)
   * `id` and `name` members.
   */
  datatype Json = Null | Str(s: string) | ChannelObject(id: string, name: string)

  /** The nested `event` object of a delivery. */
  datatype Event = Event(
    Type: string,
    Channel: Json,
    User: string,
    Text: string,
    ThreadTS: string,
    BotID: string)

  /** The outer envelope of a delivery. */
  datatype SlackEvent = SlackEvent(Type: string, Challenge: string, Event: Event)

  /** The channel record decoded from a `channel_created` event. */
  datatype Channel = Channel(ID: string, Name: string)

  /** One moderation rule: trigger words, the API method to call and the text to send. */
  datatype Filter = Filter(Triggers: seq<string>, Action: string, Message: string)

  /** The configured filters; `Nil` is the nil slice, distinct from an empty one. */
  datatype FilterConfig = Nil | Filters(list: seq<Filter>)
}
