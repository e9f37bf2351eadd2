/**
 * The desktop peer's notification characteristic (bleno): a value register
 * that the phone writes JSON into. Each write is shown as a desktop
 * notification and echoed to the subscriber, if one is registered.
 */
module NotificationPeer {
  import opened Outcomes
  import DesktopDevice

  type Bytes = seq<bv8>

  /** bleno's Characteristic.RESULT_SUCCESS. */
  const ResultSuccess: int := 0

  /** A value as JSON.parse returns it. */
  datatype Json =
    | JNull
    | JBool(b: bool)
    | JNumber(n: int)
    | JString(s: string)
    | JArray(items: seq<Json>)
    | JObject(fields: map<string, Json>)

  /** The result of reading a property: its value, or undefined. */
  datatype Property = Undefined | Defined(value: Json)

  /** What the write handler can throw. */
  datatype JsError =
    | SyntaxError      // JSON.parse of a value that is not JSON
    | TypeError        // reading a property of null

  /** The title and message handed to the desktop notifier. */
  datatype Notice = Notice(title: Property, message: Property)

  /** ({}).hasOwnProperty.call(v, key) for a parsed value that is not null. */
  predicate HasOwn(v: Json, key: string)
  {
    v.JObject? && key in v.fields
  }

  /**
   * v[key] for the keys the handler reads ("title", "body", "name" and
   * "number"): no array, string, number or boolean has them, and neither
   * has Object.prototype, so only an object's own property is defined.
   */
  function Get(v: Json, key: string): (r: Property)
    ensures r.Defined? <==> HasOwn(v, key)
    ensures r.Defined? ==> r.value == v.fields[key]
  {
    if HasOwn(v, key) then Defined(v.fields[key]) else Undefined
  }

  /**
   * The notice a written value produces, given what JSON.parse makes of it
   * (None when it throws): a value with an own "number" is a call and shows
   * name and number, anything else shows title and body; null throws on the
   * first property read.
   */
  function NoticeFor(parsed: Option<Json>): (r: Result<Notice, JsError>)
    ensures parsed.None? <==> r == Err(SyntaxError)
    ensures parsed == Some(JNull) <==> r == Err(TypeError)
    ensures r.Ok? ==> parsed.Some? && parsed.value != JNull
  {
    match parsed
    case None => Err(SyntaxError)
    case Some(JNull) => Err(TypeError)
    case Some(v) =>
      if HasOwn(v, "number") then Ok(Notice(Get(v, "name"), Get(v, "number")))
      else Ok(Notice(Get(v, "title"), Get(v, "body")))
  }

  /** An object with an own "number" is shown with its name as the title and its number as the message. */
  lemma CallNotice(fields: map<string, Json>)
    requires "number" in fields
    ensures NoticeFor(Some(JObject(fields))) ==
      Ok(Notice(if "name" in fields then Defined(fields["name"]) else Undefined, Defined(fields["number"])))
  {
  }

  /** An object without an own "number" is shown with its title and body, each undefined when missing. */
  lemma MessageNotice(fields: map<string, Json>)
    requires "number" !in fields
    ensures NoticeFor(Some(JObject(fields))) ==
      Ok(Notice(if "title" in fields then Defined(fields["title"]) else Undefined,
                if "body" in fields then Defined(fields["body"]) else Undefined))
  {
  }

  /** The JSON object Gson writes for a music push: the MusicSpec fields. */
  function MusicJson(info: DesktopDevice.MusicInfo): (r: Json)
    ensures r.JObject? && r.fields.Keys == {"artist", "album", "track", "duration", "trackCount", "trackNr"}
  {
    JObject(map[
      "artist" := JString(info.artist),
      "album" := JString(info.album),
      "track" := JString(info.track),
      "duration" := JNumber(info.duration),
      "trackCount" := JNumber(info.trackCount),
      "trackNr" := JNumber(info.trackNr)])
  }

  /** A music push from the phone reaches the desktop with neither a title nor a message. */
  lemma MusicPushHasNoText(info: DesktopDevice.MusicInfo)
    ensures NoticeFor(Some(MusicJson(info))) == Ok(Notice(Undefined, Undefined))
  {
    var v := MusicJson(info);
    assert "number" !in v.fields && "title" !in v.fields && "body" !in v.fields;
  }

  /** Identifies an updateValueCallback handed over by bleno. */
  type CallbackId = nat

  /** One call of the registered updateValueCallback. */
  datatype Echo = Echo(callback: CallbackId, value: Bytes)

  class NotificationCharacteristic {
    /** data.toString('utf8') followed by JSON.parse; None where JSON.parse throws. */
    const parse: Bytes -> Option<Json>
    /** this._value */
    var value: Bytes
    /** this._updateValueCallback */
    var updateValueCallback: Option<CallbackId>
    /** Every call made to a registered callback, in order. */
    var echoes: seq<Echo>

    constructor (parse: Bytes -> Option<Json>)
      ensures this.parse == parse
      ensures value == [] && updateValueCallback == None && echoes == []
    {
      this.parse := parse;
      value := [];
      updateValueCallback := None;
      echoes := [];
    }

    /** onReadRequest: answers success with the current value. */
    method OnReadRequest(offset: int) returns (result: int, data: Bytes)
      ensures result == ResultSuccess && data == value
    {
      result := ResultSuccess;
      data := value;
    }

    /**
     * onWriteRequest: stores the data, then shows its notice; the subscriber
     * gets the value and the writer gets success only when parsing and
     * reading the payload did not throw.
     */
    method OnWriteRequest(data: Bytes, offset: int, withoutResponse: bool) returns (notice: Result<Notice, JsError>, response: Option<int>)
      modifies this
      ensures value == data && updateValueCallback == old(updateValueCallback)
      ensures notice == NoticeFor(parse(data))
      ensures response == (if notice.Ok? then Some(ResultSuccess) else None)
      ensures notice.Ok? && updateValueCallback.Some? ==> echoes == old(echoes) + [Echo(updateValueCallback.value, data)]
      ensures !(notice.Ok? && updateValueCallback.Some?) ==> echoes == old(echoes)
    {
      value := data;
      notice := NoticeFor(parse(value));
      if notice.Err? {
        return notice, None;
      }
      if updateValueCallback.Some? {
        echoes := echoes + [Echo(updateValueCallback.value, value)];
      }
      response := Some(ResultSuccess);
    }

    /** onSubscribe: registers the callback. */
    method OnSubscribe(maxValueSize: int, callback: CallbackId)
      modifies this`updateValueCallback
      ensures updateValueCallback == Some(callback)
    {
      updateValueCallback := Some(callback);
    }

    /** onUnsubscribe: clears the callback. */
    method OnUnsubscribe()
      modifies this`updateValueCallback
      ensures updateValueCallback == None
    {
      updateValueCallback := None;
    }
  }

  /** A read after a write returns exactly the written bytes, whatever the write handler made of them. */
  method WriteThenRead(c: NotificationCharacteristic, data: Bytes) returns (read: Bytes)
    modifies c
    ensures read == data
  {
    var notice, response := c.OnWriteRequest(data, 0, false);
    var result;
    result, read := c.OnReadRequest(0);
  }

  /**
   * Subscribe, write, unsubscribe, write the same value again: a payload that
   * parses to a non-null value is echoed once, to the subscriber; any other
   * payload is never echoed.
   */
  method EchoOnlyWhileSubscribed(parse: Bytes -> Option<Json>, data: Bytes, callback: CallbackId) returns (echoes: seq<Echo>)
    ensures NoticeFor(parse(data)).Ok? ==> echoes == [Echo(callback, data)]
    ensures NoticeFor(parse(data)).Err? ==> echoes == []
  {
    var c := new NotificationCharacteristic(parse);
    c.OnSubscribe(512, callback);
    var first, firstResponse := c.OnWriteRequest(data, 0, false);
    c.OnUnsubscribe();
    var second, secondResponse := c.OnWriteRequest(data, 0, false);
    echoes := c.echoes;
  }
}
