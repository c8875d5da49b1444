/**
 * The request handler of slack-moderator-words/events.go (`ServeHTTP`),
 * from a signature check's verdict and an already decoded payload to the
 * reply, the API calls sent and the handler's flags.
 */
module Events {
  import opened Model
  import opened SlackClient
  import opened Moderation

  /** The API method the bot uses to join a newly created channel. */
  const ConversationsJoin: string := "conversations.join"

  /** The HTTP reply written to the platform. */
  datatype Response =
    | ChallengeReply(challenge: string)  // 200, JSON object echoing the challenge
    | Ack                                // 200, empty body
    | ServerError                        // 500 written by `logError`

  /** What handling one delivery amounts to. */
  datatype Outcome =
    | Served(response: Response, calls: seq<Call>, matched: bool, errorReported: bool)
    | Fatal(calls: seq<Call>)  // `log.Fatalf`: the process exits after these calls

  /** Decoding the `channel` member of a `channel_created` event into a `Channel`. */
  datatype ChannelDecoding = Decoded(channel: Channel) | DecodeError

  /**
   * Re-encoding the untyped `channel` value and decoding it into a channel
   * record: an object gives its id and name, `null` leaves the record
   * empty, and a string cannot be decoded into a record.
   */
  function DecodeChannel(v: Json): (r: ChannelDecoding)
    ensures r.DecodeError? <==> v.Str?
    ensures v.ChannelObject? ==> r == Decoded(Channel(v.id, v.name))
    ensures v.Null? ==> r == Decoded(Channel("", ""))
  {
    match v
    case Null => Decoded(Channel("", ""))
    case Str(_) => DecodeError
    case ChannelObject(id, name) => Decoded(Channel(id, name))
  }

  /** The call that makes the bot join channel `id`. */
  function JoinCall(id: string): Call
  {
    Call(ConversationsJoin, map["channel" := Str(id)])
  }

  /**
   * Handles one delivery. `signatureValid` is the verdict of the client's
   * signature check on the raw request; `api(k)` holds when the API
   * answers the k-th call of this delivery with an error.
   */
  method Handle(signatureValid: bool, ev: SlackEvent, filters: FilterConfig, api: nat -> bool)
    returns (out: Outcome)
    ensures !signatureValid ==> out == Served(ServerError, [], false, true)
    ensures signatureValid && ev.Type == UrlVerification ==>
      out == Served(ChallengeReply(ev.Challenge), [], false, false)
    ensures signatureValid && ev.Type != UrlVerification && ev.Event.Type == ChannelCreatedType ==>
      match DecodeChannel(ev.Event.Channel)
      case DecodeError => out == Fatal([])
      case Decoded(ch) =>
        out.calls == [JoinCall(ch.ID)]
        && (out.Fatal? <==> api(0))
        && (out.Served? ==> out == Served(Ack, [JoinCall(ch.ID)], false, false))
    ensures signatureValid && ev.Type != UrlVerification && ev.Event.Type != ChannelCreatedType ==>
      out.Served? && out.response == Ack
      && out.calls == (if ev.Event.BotID != "" || filters.Nil? then [] else ModerationCalls(ev.Event, filters.list))
      && (out.matched <==> out.calls != [])
      && (out.errorReported <==> exists k :: 0 <= k < |out.calls| && api(k))
  {
    if !signatureValid {
      return Served(ServerError, [], false, true);
    }

    if ev.Type == UrlVerification {
      return Served(ChallengeReply(ev.Challenge), [], false, false);
    }

    if ev.Event.Type == ChannelCreatedType {
      var decoded := DecodeChannel(ev.Event.Channel);
      if decoded.DecodeError? {
        return Fatal([]);
      }
      var channelCreated := decoded.channel;
      var sent, failed := CallMethod([], ConversationsJoin, map["channel" := Str(channelCreated.ID)], api);
      if failed {
        return Fatal(sent);
      }
      return Served(Ack, sent, false, false);
    }

    var calls, matched, errorReported := Moderate(ev.Event, filters, api);
    return Served(Ack, calls, matched, errorReported);
  }
}
