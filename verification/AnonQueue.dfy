/** The `aqid:` address of an anonymous queue. */
module AnonQueue {
  import opened Basics
  import opened Base64

  const QUEUE_ID_LEN := 16
  const AQID_SCHEME := "aqid:"

  datatype AnonQueueError =
    | EmptyRelay
    | SlashInRelay
    | BadIdLen(got: nat)
    | BadAddress
    | BadBase64

  function EncodeAqid(relay: string, id: Bytes): Result<string, AnonQueueError> {
    if relay == "" then Err(EmptyRelay)
    else if '/' in relay then Err(SlashInRelay)
    else if |id| != QUEUE_ID_LEN then Err(BadIdLen(|id|))
    else Ok(AQID_SCHEME + relay + "/" + EncodeUnpadded(UrlSafe, id))
  }

  /** `split_once('/')`: before and after the first slash. */
  function SplitAtSlash(s: string): (r: Option<(string, string)>)
    ensures r.None? <==> '/' !in s
    ensures r.Some? ==> s == r.value.0 + "/" + r.value.1 && '/' !in r.value.0
  {
    if s == "" then None
    else if s[0] == '/' then
      assert s == "" + "/" + s[1..];
      Some(("", s[1..]))
    else
      assert s == [s[0]] + s[1..];
      match SplitAtSlash(s[1..])
      case None => None
      case Some((before, after)) =>
        assert s == [s[0]] + (before + "/" + after);
        Some(([s[0]] + before, after))
  }

  function DecodeAqid(s: string): Result<(string, Bytes), AnonQueueError> {
    if !(AQID_SCHEME <= s) then Err(BadAddress)
    else
      match SplitAtSlash(s[|AQID_SCHEME|..])
      case None => Err(BadAddress)
      case Some((relay, text)) =>
        if relay == "" || text == "" then Err(BadAddress)
        else
          match DecodeUnpadded(UrlSafe, text)
          case None => Err(BadBase64)
          case Some(id) => if |id| != QUEUE_ID_LEN then Err(BadIdLen(|id|)) else Ok((relay, id))
  }

  lemma {:induction false} SplitFront(relay: string, rest: string)
    requires '/' !in relay
    ensures SplitAtSlash(relay + "/" + rest) == Some((relay, rest))
  {
    var s := relay + "/" + rest;
    if relay == "" {
      assert s[1..] == rest;
    } else {
      assert s[1..] == relay[1..] + "/" + rest;
      SplitFront(relay[1..], rest);
      assert relay == [relay[0]] + relay[1..];
    }
  }

  /** The addresses that decode are exactly the addresses that encode, pair by pair. */
  lemma AddressBijection(relay: string, id: Bytes, s: string)
    ensures EncodeAqid(relay, id) == Ok(s) <==> DecodeAqid(s) == Ok((relay, id))
  {
    hide DecodeUnpadded, EncodeUnpadded, SplitAtSlash;
    if EncodeAqid(relay, id) == Ok(s) {
      var text := EncodeUnpadded(UrlSafe, id);
      assert s[|AQID_SCHEME|..] == relay + "/" + text;
      SplitFront(relay, text);
      UnpaddedRoundTrip(UrlSafe, id);
      assert text != "" by { IdTextNonEmpty(id); }
    }
    if DecodeAqid(s) == Ok((relay, id)) {
      var (before, text) := SplitAtSlash(s[|AQID_SCHEME|..]).value;
      UnpaddedOnto(UrlSafe, text);
      assert s == AQID_SCHEME + s[|AQID_SCHEME|..];
      assert s == AQID_SCHEME + before + "/" + text;
    }
  }

  lemma IdTextNonEmpty(id: Bytes)
    requires id != []
    ensures EncodeUnpadded(UrlSafe, id) != ""
  {
  }

  /** Encoding succeeds exactly on a non-empty slash-free relay and a 16-byte id. */
  lemma EncodeDomain(relay: string, id: Bytes)
    ensures EncodeAqid(relay, id).Ok? <==> relay != "" && '/' !in relay && |id| == QUEUE_ID_LEN
  {
  }
}
