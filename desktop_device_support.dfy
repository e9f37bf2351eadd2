/**
 * DesktopDeviceSupport: the phone side of the desktop companion. It pushes
 * music information to the notification characteristic, debounced by object
 * identity, and answers a write to the message-sync characteristic with one
 * transaction holding a frame per conversation with a positive message count.
 */
module DesktopDevice {
  import opened Outcomes
  import opened JavaLang
  import opened MessageRecords
  import opened MessageOrder
  import opened ConversationSync
  import opened Gatt

  const MessageSyncCharacteristic: Uuid := "13333333-3333-3333-3333-800000000001"
  const NotificationCharacteristic: Uuid := "13333333-3333-3333-3333-800000000002"

  /** The fields of a MusicSpec, as Gson serialises them. */
  datatype MusicInfo = MusicInfo(artist: string, album: string, track: string, duration: int, trackCount: int, trackNr: int)

  /** A MusicSpec object: the debouncer compares these by reference. */
  class MusicSpec {
    const info: MusicInfo

    constructor (info: MusicInfo)
      ensures this.info == info
    {
      this.info := info;
    }
  }

  /** The fields of a MusicStateSpec. */
  datatype MusicState = MusicState(state: int, position: int, playRate: int, shuffle: int, repeat: int)

  /** A MusicStateSpec object, also compared by reference. */
  class MusicStateSpec {
    const state: MusicState

    constructor (state: MusicState)
      ensures this.state == state
    {
      this.state := state;
    }
  }

  /** What a write carries, before Gson turns it into bytes. */
  datatype Payload = MusicPayload(music: MusicInfo) | ConversationPayload(frame: ConversationFrame)

  /**
   * The transaction sendMusicStateToDevice queues for a buffered spec; with
   * no spec buffered, reading its fields throws before anything is queued.
   */
  function MusicTransaction(spec: MusicSpec?): Result<seq<GattWrite<Payload>>, Exception>
  {
    if spec == null then Err(NullPointerException)
    else Ok([GattWrite(NotificationCharacteristic, MusicPayload(spec.info))])
  }

  /** The message-sync writes of a list of frames, in order. */
  function FrameWrites(frames: seq<ConversationFrame>): (r: seq<GattWrite<Payload>>)
    ensures |r| == |frames|
    ensures forall k :: 0 <= k < |frames| ==> r[k] == GattWrite(MessageSyncCharacteristic, ConversationPayload(frames[k]))
  {
    if frames == [] then []
    else FrameWrites(frames[..|frames| - 1]) + [GattWrite(MessageSyncCharacteristic, ConversationPayload(frames[|frames| - 1]))]
  }

  lemma FrameWritesSnoc(frames: seq<ConversationFrame>, f: ConversationFrame)
    ensures FrameWrites(frames + [f]) == FrameWrites(frames) + [GattWrite(MessageSyncCharacteristic, ConversationPayload(f))]
  {
    assert (frames + [f])[..|frames|] == frames;
  }

  /** Gson's decoding of the message-sync value as a Map<String, String>. */
  datatype Decoded =
    | Malformed                                  // not JSON of that shape
    | JsonNull                                   // "null" or an empty value: fromJson returns null
    | StringMap(entries: map<string, Option<string>>)

  /** response.get("sync"): the cursor to sync from, null when absent, or the exception on the way. */
  function SyncCursor(decoded: Decoded): Result<Option<string>, Exception>
  {
    match decoded
    case Malformed => Err(JsonSyntaxException)
    case JsonNull => Err(NullPointerException)
    case StringMap(m) => Ok(if "sync" in m then m["sync"] else None)
  }

  /** What the desktop peer writes on subscribing: {"sync1": 608}. */
  const PeerSubscribeValue: Decoded := StringMap(map["sync1" := Some("608")])

  /** The transaction one sync queues on a fresh builder, or the exception that ends it. */
  function SyncTransaction(p: Platform, stores: Stores, strLastId: string, now: int): Result<seq<GattWrite<Payload>>, Exception>
  {
    match ParseInt(strLastId)
    case Err(e) => Err(e)
    case Ok(_) =>
      var run := Sync(p, stores, stores.conversations, Watermark(now));
      if run.error.Some? then Err(run.error.value) else Ok(FrameWrites(run.frames))
  }

  /**
   * A sync cursor that parses as an int queues one write per conversation with
   * a positive message count, carrying that conversation's frame, in cursor
   * order; it fails exactly when the cursor does not parse or a frame throws.
   */
  lemma SyncTransactionContents(p: Platform, stores: Stores, strLastId: string, now: int)
    ensures ParseInt(strLastId).Err? ==> SyncTransaction(p, stores, strLastId, now) == Err(ParseInt(strLastId).error)
    ensures SyncTransaction(p, stores, strLastId, now).Ok? <==>
      ParseInt(strLastId).Ok? &&
      forall k :: 0 <= k < |Active(stores.conversations)| ==>
        FrameOf(p, stores, Active(stores.conversations)[k], Watermark(now)).Ok?
    ensures SyncTransaction(p, stores, strLastId, now).Ok? ==>
      var t := SyncTransaction(p, stores, strLastId, now).value;
      var active := Active(stores.conversations);
      |t| == |active| &&
      forall k :: 0 <= k < |t| ==>
        t[k].characteristic == MessageSyncCharacteristic &&
        FrameOf(p, stores, active[k], Watermark(now)) == Ok(t[k].payload.frame)
  {
    SyncFrames(p, stores, stores.conversations, Watermark(now));
  }

  /**
   * What a characteristic change queues: Ok(None) when nothing is queued,
   * Ok(Some(t)) when transaction t is, or the exception that escapes.
   */
  function ChangeOutcome(uuid: Uuid, decoded: Decoded, p: Platform, stores: Stores, now: int): Result<Option<seq<GattWrite<Payload>>>, Exception>
  {
    if uuid != MessageSyncCharacteristic then Ok(None)
    else
      match SyncCursor(decoded)
      case Err(e) => Err(e)
      case Ok(None) => Ok(None)
      case Ok(Some(strLastId)) =>
        match SyncTransaction(p, stores, strLastId, now)
        case Err(e) => Err(e)
        case Ok(t) => Ok(Some(t))
  }

  /** A sync is queued only for the message-sync characteristic and a non-null "sync" entry. */
  lemma SyncNeedsCursor(uuid: Uuid, decoded: Decoded, p: Platform, stores: Stores, now: int)
    ensures ChangeOutcome(uuid, decoded, p, stores, now).Ok? && ChangeOutcome(uuid, decoded, p, stores, now).value.Some? ==>
      uuid == MessageSyncCharacteristic && decoded.StringMap? && "sync" in decoded.entries && decoded.entries["sync"].Some?
    ensures uuid != MessageSyncCharacteristic ==> ChangeOutcome(uuid, decoded, p, stores, now) == Ok(None)
  {
  }

  /** The peer's subscribe value names its key "sync1", so it never starts a sync. */
  lemma PeerValueNeverSyncs(p: Platform, stores: Stores, now: int)
    ensures ChangeOutcome(MessageSyncCharacteristic, PeerSubscribeValue, p, stores, now) == Ok(None)
  {
    assert "sync" != "sync1";
  }

  class DesktopDeviceSupport {
    /** coordinator.supportsMusicInfo() for this device. */
    const supportsMusicInfo: bool
    /** getQueue(). */
    const queue: BtleQueue<Payload>
    var bufferMusicSpec: MusicSpec?
    var bufferMusicStateSpec: MusicStateSpec?

    constructor (supportsMusicInfo: bool, queue: BtleQueue<Payload>)
      ensures this.supportsMusicInfo == supportsMusicInfo && this.queue == queue
      ensures bufferMusicSpec == null && bufferMusicStateSpec == null
    {
      this.supportsMusicInfo := supportsMusicInfo;
      this.queue := queue;
      bufferMusicSpec := null;
      bufferMusicStateSpec := null;
    }

    /** Queues the buffered music spec on the notification characteristic. */
    method SendMusicStateToDevice() returns (error: Option<Exception>)
      modifies queue
      ensures MusicTransaction(bufferMusicSpec).Err? ==>
        error == Some(NullPointerException) && queue.transactions == old(queue.transactions)
      ensures MusicTransaction(bufferMusicSpec).Ok? ==>
        error == None && queue.transactions == old(queue.transactions) + [MusicTransaction(bufferMusicSpec).value]
    {
      if bufferMusicSpec == null {
        return Some(NullPointerException);
      }
      var builder := new TransactionBuilder<Payload>();
      builder.Write(NotificationCharacteristic, MusicPayload(bufferMusicSpec.info));
      assert builder.writes == MusicTransaction(bufferMusicSpec).value;
      builder.Queue(queue);
      assert queue.transactions == old(queue.transactions) + [MusicTransaction(bufferMusicSpec).value];
      error := None;
    }

    /**
     * onSetMusicState: a push happens exactly when music info is supported and
     * the offered object is not the buffered one; the push sends the buffered
     * music spec, and throws when none has been offered yet.
     */
    method OnSetMusicState(stateSpec: MusicStateSpec?) returns (error: Option<Exception>)
      modifies this`bufferMusicStateSpec, queue
      ensures var offered := supportsMusicInfo && old(bufferMusicStateSpec) != stateSpec;
        && bufferMusicStateSpec == (if offered then stateSpec else old(bufferMusicStateSpec))
        && (!offered ==> error == None && queue.transactions == old(queue.transactions))
        && (offered && MusicTransaction(bufferMusicSpec).Err? ==>
              error == Some(NullPointerException) && queue.transactions == old(queue.transactions))
        && (offered && MusicTransaction(bufferMusicSpec).Ok? ==>
              error == None && queue.transactions == old(queue.transactions) + [MusicTransaction(bufferMusicSpec).value])
    {
      if !supportsMusicInfo {
        return None;
      }
      error := None;
      if bufferMusicStateSpec != stateSpec {
        bufferMusicStateSpec := stateSpec;
        error := SendMusicStateToDevice();
      }
    }

    /**
     * onSetMusicInfo: a push happens exactly when music info is supported and
     * the offered object is not the buffered one; the push sends the new spec.
     */
    method OnSetMusicInfo(musicSpec: MusicSpec?) returns (error: Option<Exception>)
      modifies this`bufferMusicSpec, queue
      ensures var offered := supportsMusicInfo && old(bufferMusicSpec) != musicSpec;
        && bufferMusicSpec == (if offered then musicSpec else old(bufferMusicSpec))
        && (!offered ==> error == None && queue.transactions == old(queue.transactions))
        && (offered && musicSpec == null ==>
              error == Some(NullPointerException) && queue.transactions == old(queue.transactions))
        && (offered && musicSpec != null ==>
              error == None && queue.transactions == old(queue.transactions) +
                [[GattWrite(NotificationCharacteristic, MusicPayload(musicSpec.info))]])
    {
      if !supportsMusicInfo {
        return None;
      }
      error := None;
      if bufferMusicSpec != musicSpec {
        bufferMusicSpec := musicSpec;
        error := SendMusicStateToDevice();
      }
    }

    /** The SMS cursor loop: one record per row, in cursor order, until a row throws. */
    method CollectSms(p: Platform, rows: seq<SmsRow>) returns (messages: Result<seq<MessageRecord>, Exception>)
      ensures messages == Collect(rows, SmsBuilder(p))
    {
      var collected: seq<MessageRecord> := [];
      var i := 0;
      while i < |rows|
        invariant 0 <= i <= |rows|
        invariant Collect(rows[..i], SmsBuilder(p)) == Ok(collected)
      {
        var record := GetSmsInfo(p, rows[i]);
        CollectStep(rows, SmsBuilder(p), i);
        assert SmsBuilder(p)(rows[i]) == record;
        if record.Err? {
          CollectStop(rows, SmsBuilder(p), i + 1);
          return Err(record.error);
        }
        collected := collected + [record.value];
        i := i + 1;
      }
      assert rows[..i] == rows;
      messages := Ok(collected);
    }

    /** The MMS cursor loop: one record per row, in cursor order, until a row throws. */
    method CollectMms(p: Platform, rows: seq<MmsRow>) returns (messages: Result<seq<MessageRecord>, Exception>)
      ensures messages == Collect(rows, MmsBuilder(p))
    {
      var collected: seq<MessageRecord> := [];
      var i := 0;
      while i < |rows|
        invariant 0 <= i <= |rows|
        invariant Collect(rows[..i], MmsBuilder(p)) == Ok(collected)
      {
        var record := GetMmsInfo(p, rows[i]);
        CollectStep(rows, MmsBuilder(p), i);
        assert MmsBuilder(p)(rows[i]) == record;
        if record.Err? {
          CollectStop(rows, MmsBuilder(p), i + 1);
          return Err(record.error);
        }
        collected := collected + [record.value];
        i := i + 1;
      }
      assert rows[..i] == rows;
      messages := Ok(collected);
    }

    /** The frame of one conversation row: the two cursor loops, then the sort. */
    method BuildFrame(p: Platform, stores: Stores, row: ConversationRow, since: int) returns (frame: Result<ConversationFrame, Exception>)
      ensures frame == FrameBuilder(p, stores, since)(row)
    {
      if row.recipientIds.None? {
        return Err(NullPointerException);
      }
      var isGroup := IsGroupAsWritten(row.recipientIds.value);
      var smsRecords := CollectSms(p, SmsQuery(stores.sms, row.id, since));
      if smsRecords.Err? {
        return Err(smsRecords.error);
      }
      var mmsRecords := CollectMms(p, MmsQuery(stores.mms, row.id, since));
      if mmsRecords.Err? {
        return Err(mmsRecords.error);
      }
      var messages := smsRecords.value + mmsRecords.value;
      messages := SortByDateDesc(messages);
      frame := Ok(ConversationFrame(row.id, row.snippet, isGroup, GetInt(row.messageCount), row.date, messages));
    }

    /**
     * One pass of the conversation loop: a row with a positive message count
     * gets its frame written to the message-sync characteristic, unless
     * building the frame throws.
     */
    method WriteConversation(p: Platform, builder: TransactionBuilder<Payload>, stores: Stores,
                             row: ConversationRow, since: int, ghost prev: SyncRun, ghost start: seq<GattWrite<Payload>>)
      returns (error: Option<Exception>)
      requires prev.error.None? && builder.writes == start + FrameWrites(prev.frames)
      modifies builder
      ensures error == SyncNext(p, stores, prev, row, since).error
      ensures builder.writes == start + FrameWrites(SyncNext(p, stores, prev, row, since).frames)
      ensures builder.queued == old(builder.queued)
    {
      error := None;
      if GetInt(row.messageCount) > 0 {
        var frame := BuildFrame(p, stores, row, since);
        if frame.Err? {
          return Some(frame.error);
        }
        FrameWritesSnoc(prev.frames, frame.value);
        builder.Write(MessageSyncCharacteristic, ConversationPayload(frame.value));
      }
    }

    /**
     * getAllSms: writes one frame per conversation with a positive message
     * count and queues the builder; an uncaught exception leaves the frames
     * written so far in the builder and queues nothing.
     */
    method GetAllSms(p: Platform, builder: TransactionBuilder<Payload>, strLastId: string, now: int, stores: Stores)
      returns (error: Option<Exception>)
      modifies builder, queue
      ensures ParseInt(strLastId).Err? ==>
        && error == Some(ParseInt(strLastId).error)
        && builder.writes == old(builder.writes) && builder.queued == old(builder.queued)
        && queue.transactions == old(queue.transactions)
      ensures ParseInt(strLastId).Ok? ==>
        var run := Sync(p, stores, stores.conversations, Watermark(now));
        && error == run.error
        && builder.writes == old(builder.writes) + FrameWrites(run.frames)
        && (run.error.None? ==> builder.queued && queue.transactions == old(queue.transactions) + [builder.writes])
        && (run.error.Some? ==> builder.queued == old(builder.queued) && queue.transactions == old(queue.transactions))
    {
      var lastId := ParseInt(strLastId);
      if lastId.Err? {
        return Some(lastId.error);
      }
      var since := Watermark(now);
      var convs := stores.conversations;
      var i := 0;
      while i < |convs|
        invariant 0 <= i <= |convs|
        invariant Sync(p, stores, convs[..i], since).error.None?
        invariant builder.writes == old(builder.writes) + FrameWrites(Sync(p, stores, convs[..i], since).frames)
        invariant builder.queued == old(builder.queued)
        invariant queue.transactions == old(queue.transactions)
      {
        SyncStep(p, stores, convs, since, i);
        error := WriteConversation(p, builder, stores, convs[i], since, Sync(p, stores, convs[..i], since), old(builder.writes));
        if error.Some? {
          SyncStop(p, stores, convs, since, i + 1);
          return;
        }
        i := i + 1;
      }
      assert convs[..i] == convs;
      builder.Queue(queue);
      error := None;
    }

    /**
     * onCharacteristicChanged: a write to the message-sync characteristic
     * whose decoded "sync" entry is non-null runs getAllSms on a fresh
     * builder; anything else is only logged. The change is never reported as
     * handled.
     */
    method OnCharacteristicChanged(uuid: Uuid, decoded: Decoded, p: Platform, stores: Stores, now: int)
      returns (handled: bool, error: Option<Exception>)
      modifies queue
      ensures !handled
      ensures var outcome := ChangeOutcome(uuid, decoded, p, stores, now);
        && (outcome.Err? ==> error == Some(outcome.error) && queue.transactions == old(queue.transactions))
        && (outcome == Ok(None) ==> error == None && queue.transactions == old(queue.transactions))
        && (outcome.Ok? && outcome.value.Some? ==>
              error == None && queue.transactions == old(queue.transactions) + [outcome.value.value])
    {
      handled := false;
      var builder := new TransactionBuilder<Payload>();
      error := None;
      if uuid == MessageSyncCharacteristic {
        var cursor := SyncCursor(decoded);
        if cursor.Err? {
          error := Some(cursor.error);
        } else if cursor.value.Some? {
          error := GetAllSms(p, builder, cursor.value.value, now, stores);
          assert [] + FrameWrites(Sync(p, stores, stores.conversations, Watermark(now)).frames)
              == FrameWrites(Sync(p, stores, stores.conversations, Watermark(now)).frames);
        }
      }
    }
  }

  /** Offering the same MusicSpec object twice pushes it once. */
  method RepeatedOfferPushesOnce(info: MusicInfo) returns (pushes: nat)
    ensures pushes == 1
  {
    var queue := new BtleQueue<Payload>();
    var device := new DesktopDeviceSupport(true, queue);
    var spec := new MusicSpec(info);
    var first := device.OnSetMusicInfo(spec);
    var second := device.OnSetMusicInfo(spec);
    pushes := |queue.transactions|;
  }

  /** A music state offered before any music info throws and queues nothing. */
  method StateBeforeInfoThrows(state: MusicState) returns (error: Option<Exception>, pushes: nat)
    ensures error == Some(NullPointerException) && pushes == 0
  {
    var queue := new BtleQueue<Payload>();
    var device := new DesktopDeviceSupport(true, queue);
    var stateSpec := new MusicStateSpec(state);
    error := device.OnSetMusicState(stateSpec);
    pushes := |queue.transactions|;
  }
}
