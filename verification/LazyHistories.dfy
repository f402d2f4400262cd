/** Histories that stay the bytes they were loaded as until someone reads them,
    and become bytes again when the graph is written (`Store` in
    zega/src/history.rs). */
module LazyHistories {
  import opened HistBytes
  import opened HistCodec
  import opened HistFormat
  import opened HistRoundTrip
  import opened Machine
  import opened Values
  import opened Wrappers

  const NONE: Histories := Histories([], [], [], [])

  class Store {
    var encoded: Option<seq<byte>>
    var decoded: Option<Result<Histories, Error>>
    const codec: Bincode

    // Bytes and histories held at once say the same; what could not be decoded
    // is kept as the bytes it was.
    ghost predicate Valid()
      reads this
    {
      && (encoded.Some? && decoded.Some? ==> decoded.value == Decode(encoded.value, codec))
      && (decoded.Some? && decoded.value.Err? ==> encoded.Some?)
    }

    // What a reader gets.
    ghost function View(): Result<Histories, Error>
      reads this
    {
      if decoded.Some? then decoded.value
      else if encoded.Some? then Decode(encoded.value, codec)
      else Ok(NONE)
    }

    constructor Lazy(bytes: seq<byte>, codec: Bincode)
      ensures Valid() && View() == Decode(bytes, codec) && this.codec == codec
    {
      encoded, decoded := Some(bytes), None;
      this.codec := codec;
    }

    method HasData() returns (data: bool)
      requires Valid()
      ensures !data ==> View() == Ok(NONE)
      ensures data && View() == Ok(NONE) ==> encoded.Some?
    {
      data := encoded.Some? || (decoded.Some? && decoded.value.Ok? && decoded.value.value != NONE);
    }

    // Decodes on the first read only, and never changes what is read.
    method Read() returns (r: Result<Histories, Error>)
      requires Valid()
      modifies this`decoded
      ensures Valid() && r == View() == old(View()) && decoded == Some(r)
    {
      hide Decode;
      if decoded.None? {
        if encoded.Some? {
          var h := DecodeIn(encoded.value, codec);
          decoded := Some(h);
        } else {
          decoded := Some(Ok(NONE));
        }
      }
      r := decoded.value;
    }

    // Opens the histories to change: the bytes no longer stand for them.
    method Change(change: Histories -> Histories) returns (r: Result<(), Error>)
      requires Valid()
      modifies this`decoded, this`encoded
      ensures Valid()
      ensures r.Err? ==> View() == old(View()) && old(View()).Err? && encoded == old(encoded)
      ensures r.Ok? ==> old(View()).Ok? && View() == Ok(change(old(View()).value)) && encoded.None?
    {
      var h :- Read();
      encoded, decoded := None, Some(Ok(change(h)));
      r := Ok(());
    }

    // The bytes to store decode to what a reader gets, and there are none only
    // when there is nothing to store.
    method Bytes() returns (r: Result<Option<seq<byte>>, Error>)
      requires Valid() && Lawful(codec)
      ensures match r
        case Err(e) => View() == Err(e)
        case Ok(None) => View() == Ok(NONE)
        case Ok(Some(b)) =>
          View().Ok? && WellFormedHistories(View().value) && |b| < TWO_64 ==> Decode(b, codec) == View()
    {
      hide Decode, Encode, WellFormedHistories, Lawful;
      if encoded.Some? {
        return Ok(encoded);
      }
      match decoded
      case None => r := Ok(None);
      case Some(Err(e)) => r := Err(e);
      case Some(Ok(h)) =>
        if h == NONE {
          return Ok(None);
        }
        var b := EncodeOut(h, codec);
        if WellFormedHistories(h) && |b| < TWO_64 {
          RoundTrip(h, codec);
        }
        r := Ok(Some(b));
    }
  }
}
