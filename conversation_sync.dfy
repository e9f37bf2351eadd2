/**
 * The conversation sync of getAllSms as functions: which conversations give
 * a frame, what a frame holds, and where an uncaught exception stops the
 * sync. The method that runs it is DesktopDevice.DesktopDeviceSupport.GetAllSms.
 */
module ConversationSync {
  import opened Outcomes
  import opened JavaLang
  import opened MessageRecords
  import opened MessageOrder

  /** A row of content://mms-sms/conversations: _id, recipient_ids (a column that may be null), message_count (as stored; getInt reads it), snippet and date. */
  datatype ConversationRow = ConversationRow(id: string, recipientIds: Option<string>, messageCount: int, snippet: string, date: int)

  /** The three content providers, each as the rows it returns in its own order. */
  datatype Stores = Stores(conversations: seq<ConversationRow>, sms: seq<SmsRow>, mms: seq<MmsRow>)

  /** The JSON object written per conversation: id, snippet, isGroup, count, date and messages. */
  datatype ConversationFrame = ConversationFrame(
    id: string,
    snippet: string,
    isGroup: bool,
    count: int,
    date: int,
    messages: seq<MessageRecord>)

  /** The frames built before the sync ended, and the exception that ended it early, if any. */
  datatype SyncRun = SyncRun(frames: seq<ConversationFrame>, error: Option<Exception>)

  /** The look-back of the message queries: two days, in milliseconds. */
  const DaysBack: int := 2
  const DayMillis: int := 24 * 3600 * 1000

  /** Messages are fetched only when dated after this instant. */
  function Watermark(now: int): int
  {
    now - DaysBack * DayMillis
  }

  // ---------------------------------------------------------------------------
  // isGroup (see the finding in README.md)
  // ---------------------------------------------------------------------------

  /** isGroup as written: the space-split recipient list is empty. */
  function IsGroupAsWritten(recipientIds: string): bool
  {
    |Split(recipientIds, ' ')| == 0
  }

  /** As written, only a non-empty list of spaces is a group. */
  lemma IsGroupAsWrittenBlankOnly(recipientIds: string)
    ensures IsGroupAsWritten(recipientIds) <==>
      recipientIds != "" && forall i :: 0 <= i < |recipientIds| ==> recipientIds[i] == ' '
  {
    SplitEmptyIff(recipientIds, ' ');
  }

  /** isGroup as intended: more than one recipient. */
  function IsGroup(recipientIds: string): bool
  {
    |Split(recipientIds, ' ')| > 1
  }

  /** For a recipient list written as space-separated ids, the intended isGroup counts them. */
  lemma IsGroupCountsRecipients(ids: seq<string>)
    requires |ids| >= 1
    requires forall k :: 0 <= k < |ids| ==> ids[k] != "" && ' ' !in ids[k]
    ensures IsGroup(Join(ids, ' ')) <==> |ids| > 1
    ensures !IsGroupAsWritten(Join(ids, ' '))
  {
    SplitJoin(ids, ' ');
  }

  /** Two recipients: a group as intended, not as written. */
  lemma TwoRecipientsNotGroupAsWritten()
    ensures IsGroup("3 7") && !IsGroupAsWritten("3 7")
  {
    IsGroupCountsRecipients(["3", "7"]);
    assert Join(["3", "7"], ' ') == "3 7";
  }

  // ---------------------------------------------------------------------------
  // The message queries: "thread_id=<id> AND date><watermark>"
  // ---------------------------------------------------------------------------

  /** The rows a where-clause selects, in the order the provider returns them. */
  function Where<R(!new)>(rows: seq<R>, keep: R -> bool): (r: seq<R>)
    ensures forall x :: x in r <==> x in rows && keep(x)
    ensures |r| <= |rows|
    ensures (forall i :: 0 <= i < |rows| ==> !keep(rows[i])) ==> r == []
  {
    if rows == [] then []
    else (if keep(rows[0]) then [rows[0]] else []) + Where(rows[1..], keep)
  }

  /** content://sms/ rows of the thread dated after the watermark. */
  function SmsQuery(rows: seq<SmsRow>, threadId: string, since: int): seq<SmsRow>
  {
    Where(rows, (row: SmsRow) => row.threadId == threadId && row.date > since)
  }

  /** content://mms/ rows of the thread dated after the watermark. */
  function MmsQuery(rows: seq<MmsRow>, threadId: string, since: int): seq<MmsRow>
  {
    Where(rows, (row: MmsRow) => row.threadId == threadId && row.date > since)
  }

  /**
   * The MMS query compares the millisecond watermark with MMS dates, which are
   * in seconds: once the clock is past four days after the epoch, no MMS row
   * dated up to now is ever selected (see the finding in README.md).
   */
  lemma MmsQueryMissesSeconds(rows: seq<MmsRow>, threadId: string, now: int)
    requires now >= 2 * DaysBack * DayMillis
    requires forall i :: 0 <= i < |rows| ==> rows[i].date * 1000 <= now
    ensures MmsQuery(rows, threadId, Watermark(now)) == []
  {
    forall i | 0 <= i < |rows|
      ensures rows[i].date <= Watermark(now)
    {
      assert rows[i].date * 1000 <= now;
    }
  }

  /** The MMS query as intended: the row's date converted to milliseconds first. */
  function MmsQueryMillis(rows: seq<MmsRow>, threadId: string, since: int): seq<MmsRow>
  {
    Where(rows, (row: MmsRow) => row.threadId == threadId && row.date * 1000 > since)
  }

  /** A message of the thread dated within the last two days is selected as intended, and missed as written. */
  lemma MmsQueryMillisSelectsRecent(rows: seq<MmsRow>, threadId: string, now: int, x: MmsRow)
    requires now >= 2 * DaysBack * DayMillis
    requires x in rows && x.threadId == threadId
    requires Watermark(now) < x.date * 1000 <= now
    ensures x in MmsQueryMillis(rows, threadId, Watermark(now))
    ensures x !in MmsQuery(rows, threadId, Watermark(now))
  {
    assert x.date <= Watermark(now) by {
      assert x.date * 1000 <= now;
    }
  }

  // ---------------------------------------------------------------------------
  // Collecting a conversation's records: SMS first, then MMS
  // ---------------------------------------------------------------------------

  /**
   * The records built from rows in order (one cursor loop), or the first
   * exception a row raises, which ends the loop.
   */
  function Collect<R>(rows: seq<R>, build: R -> Result<MessageRecord, Exception>): Result<seq<MessageRecord>, Exception>
  {
    if rows == [] then Ok([])
    else
      match Collect(rows[..|rows| - 1], build)
      case Err(e) => Err(e)
      case Ok(rs) =>
        match build(rows[|rows| - 1])
        case Err(e) => Err(e)
        case Ok(x) => Ok(rs + [x])
  }

  /** Success gives one record per row, in row order, and needs every row to succeed. */
  lemma {:induction false} CollectValues<R>(rows: seq<R>, build: R -> Result<MessageRecord, Exception>)
    ensures Collect(rows, build).Ok? <==> forall i :: 0 <= i < |rows| ==> build(rows[i]).Ok?
    ensures Collect(rows, build).Ok? ==>
      (|Collect(rows, build).value| == |rows| &&
       forall i :: 0 <= i < |rows| ==> build(rows[i]) == Ok(Collect(rows, build).value[i]))
  {
    if rows != [] {
      var init := rows[..|rows| - 1];
      CollectValues(init, build);
      assert forall i :: 0 <= i < |init| ==> rows[i] == init[i];
    }
  }

  /** One more row: its record is appended, or its exception ends the loop. */
  lemma CollectStep<R>(rows: seq<R>, build: R -> Result<MessageRecord, Exception>, i: nat)
    requires i < |rows| && Collect(rows[..i], build).Ok?
    ensures build(rows[i]).Err? ==> Collect(rows[..i + 1], build) == Err(build(rows[i]).error)
    ensures build(rows[i]).Ok? ==>
      Collect(rows[..i + 1], build) == Ok(Collect(rows[..i], build).value + [build(rows[i]).value])
  {
    assert rows[..i + 1][..i] == rows[..i];
  }

  /** Once a prefix fails, the whole list fails with the same exception. */
  lemma {:induction false} CollectStop<R>(rows: seq<R>, build: R -> Result<MessageRecord, Exception>, k: nat)
    requires k <= |rows| && Collect(rows[..k], build).Err?
    ensures Collect(rows, build) == Collect(rows[..k], build)
    decreases |rows| - k
  {
    if k < |rows| {
      assert rows[..k + 1][..k] == rows[..k];
      CollectStop(rows, build, k + 1);
    } else {
      assert rows[..k] == rows;
    }
  }

  /** The per-row builder of the SMS loop. */
  function SmsBuilder(p: Platform): SmsRow -> Result<MessageRecord, Exception>
  {
    row => SmsRecordOf(p, row)
  }

  /** The per-row builder of the MMS loop. */
  function MmsBuilder(p: Platform): MmsRow -> Result<MessageRecord, Exception>
  {
    row => MmsRecordOf(p, row)
  }

  /** The list a conversation's messages are collected into before the sort. */
  function CollectedRecords(p: Platform, s: Stores, threadId: string, since: int): Result<seq<MessageRecord>, Exception>
  {
    match Collect(SmsQuery(s.sms, threadId, since), SmsBuilder(p))
    case Err(e) => Err(e)
    case Ok(smsRecords) =>
      match Collect(MmsQuery(s.mms, threadId, since), MmsBuilder(p))
      case Err(e) => Err(e)
      case Ok(mmsRecords) => Ok(smsRecords + mmsRecords)
  }

  /**
   * The frame built for one conversation row; splitting a null recipient
   * list throws before any message is read.
   */
  function FrameOf(p: Platform, s: Stores, row: ConversationRow, since: int): Result<ConversationFrame, Exception>
  {
    match row.recipientIds
    case None => Err(NullPointerException)
    case Some(recipientIds) =>
      match CollectedRecords(p, s, row.id, since)
      case Err(e) => Err(e)
      case Ok(messages) =>
        Ok(ConversationFrame(row.id, row.snippet, IsGroupAsWritten(recipientIds), GetInt(row.messageCount), row.date, SortByDateDesc(messages)))
  }

  /** The per-row frame builder of the conversation loop. */
  function FrameBuilder(p: Platform, s: Stores, since: int): ConversationRow -> Result<ConversationFrame, Exception>
  {
    row => FrameOf(p, s, row, since)
  }

  /**
   * A frame copies the row's id, snippet, count and date; isGroup is the
   * rule as written, true only for a recipient list of spaces; its messages are
   * the SMS records followed by the MMS records of the thread, reordered by
   * date string, most recent first, records of equal date keeping that order.
   */
  lemma FrameOfContents(p: Platform, s: Stores, row: ConversationRow, since: int)
    ensures row.recipientIds == None ==> FrameOf(p, s, row, since) == Err(NullPointerException)
    ensures FrameOf(p, s, row, since).Ok? <==> row.recipientIds.Some? && CollectedRecords(p, s, row.id, since).Ok?
    ensures FrameOf(p, s, row, since).Ok? ==>
      var f := FrameOf(p, s, row, since).value;
      var collected := CollectedRecords(p, s, row.id, since).value;
      && f.id == row.id && f.snippet == row.snippet && f.count == GetInt(row.messageCount) && f.date == row.date
      && f.isGroup == IsGroupAsWritten(row.recipientIds.value)
      && (f.isGroup <==> row.recipientIds.value != "" && forall i :: 0 <= i < |row.recipientIds.value| ==> row.recipientIds.value[i] == ' ')
      && |collected| == |SmsQuery(s.sms, row.id, since)| + |MmsQuery(s.mms, row.id, since)|
      && SortedByDateDesc(f.messages)
      && multiset(f.messages) == multiset(collected)
      && forall d :: WithDate(f.messages, d) == WithDate(collected, d)
  {
    if row.recipientIds.Some? {
      IsGroupAsWrittenBlankOnly(row.recipientIds.value);
    }
    CollectValues(SmsQuery(s.sms, row.id, since), SmsBuilder(p));
    CollectValues(MmsQuery(s.mms, row.id, since), MmsBuilder(p));
    if CollectedRecords(p, s, row.id, since).Ok? {
      var collected := CollectedRecords(p, s, row.id, since).value;
      SortByDateDescSorted(collected);
      forall d ensures WithDate(SortByDateDesc(collected), d) == WithDate(collected, d) {
        SortByDateDescStable(collected, d);
      }
    }
  }

  // ---------------------------------------------------------------------------
  // The conversation loop
  // ---------------------------------------------------------------------------

  /** The conversation rows with a positive message count, in order. */
  function Active(convs: seq<ConversationRow>): (r: seq<ConversationRow>)
    ensures forall x :: x in r <==> x in convs && GetInt(x.messageCount) > 0
    ensures |r| <= |convs|
  {
    if convs == [] then []
    else
      var init := convs[..|convs| - 1];
      assert convs == init + [convs[|convs| - 1]];
      Active(init) + (if GetInt(convs[|convs| - 1].messageCount) > 0 then [convs[|convs| - 1]] else [])
  }

  /** A message_count of 2^31 reads back as Integer.MIN_VALUE, so its row gives no frame. */
  lemma WrappedCountInactive(row: ConversationRow)
    requires row.messageCount == 0x8000_0000
    ensures Active([row]) == []
    ensures GetInt(row.messageCount) == IntMin
  {
    assert [row][..0] == [];
  }

  /** The frames built, one per active row, until the first exception. */
  function Sync(p: Platform, s: Stores, convs: seq<ConversationRow>, since: int): SyncRun
  {
    if convs == [] then SyncRun([], None)
    else SyncNext(p, s, Sync(p, s, convs[..|convs| - 1], since), convs[|convs| - 1], since)
  }

  /** One pass of the conversation loop over row, after the passes that gave prev. */
  function SyncNext(p: Platform, s: Stores, prev: SyncRun, row: ConversationRow, since: int): SyncRun
  {
    if prev.error.Some? || GetInt(row.messageCount) <= 0 then prev
    else
      match FrameBuilder(p, s, since)(row)
      case Err(e) => SyncRun(prev.frames, Some(e))
      case Ok(f) => SyncRun(prev.frames + [f], None)
  }

  /**
   * A row with message_count <= 0 gives no frame; the others give their frame
   * in order; the first exception ends the sync, on the next active row.
   */
  lemma {:induction false} SyncFrames(p: Platform, s: Stores, convs: seq<ConversationRow>, since: int)
    ensures var r := Sync(p, s, convs, since);
      && |r.frames| <= |Active(convs)|
      && (forall k :: 0 <= k < |r.frames| ==> FrameOf(p, s, Active(convs)[k], since) == Ok(r.frames[k]))
      && (r.error.None? ==> |r.frames| == |Active(convs)|)
      && (r.error.Some? ==> |r.frames| < |Active(convs)| &&
                            FrameOf(p, s, Active(convs)[|r.frames|], since) == Err(r.error.value))
  {
    if convs != [] {
      var init := convs[..|convs| - 1];
      SyncFrames(p, s, init, since);
      var prev := Sync(p, s, init, since);
      var row := convs[|convs| - 1];
      if prev.error.None? && GetInt(row.messageCount) > 0 {
        assert Active(convs) == Active(init) + [row];
        assert Active(convs)[|prev.frames|] == row;
        forall k | 0 <= k < |prev.frames| ensures Active(convs)[k] == Active(init)[k] { }
      } else if prev.error.Some? && GetInt(row.messageCount) > 0 {
        assert Active(convs) == Active(init) + [row];
        forall k | 0 <= k <= |prev.frames| ensures Active(convs)[k] == Active(init)[k] { }
      } else {
        assert Active(convs) == Active(init);
      }
    }
  }

  /** The sync succeeds exactly when every active row's frame can be built. */
  lemma SyncSucceeds(p: Platform, s: Stores, convs: seq<ConversationRow>, since: int)
    ensures Sync(p, s, convs, since).error.None? <==>
      forall k :: 0 <= k < |Active(convs)| ==> FrameOf(p, s, Active(convs)[k], since).Ok?
  {
    SyncFrames(p, s, convs, since);
  }

  /** One more conversation row, while no exception has been thrown. */
  lemma SyncStep(p: Platform, s: Stores, convs: seq<ConversationRow>, since: int, i: nat)
    requires i < |convs|
    ensures Sync(p, s, convs[..i + 1], since) == SyncNext(p, s, Sync(p, s, convs[..i], since), convs[i], since)
  {
    assert convs[..i + 1][..i] == convs[..i];
  }

  /** Once the sync of a prefix fails, the rest of the rows change nothing. */
  lemma {:induction false} SyncStop(p: Platform, s: Stores, convs: seq<ConversationRow>, since: int, k: nat)
    requires k <= |convs| && Sync(p, s, convs[..k], since).error.Some?
    ensures Sync(p, s, convs, since) == Sync(p, s, convs[..k], since)
    decreases |convs| - k
  {
    if k < |convs| {
      assert convs[..k + 1][..k] == convs[..k];
      SyncStop(p, s, convs, since, k + 1);
    } else {
      assert convs[..k] == convs;
    }
  }
}
