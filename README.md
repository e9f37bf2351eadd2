# Desktop companion: message sync and notification push

Gadgetbridge's desktop device support lets an Android phone talk over Bluetooth LE to a desktop
companion app. The desktop app is written with Electron and bleno. This project models two sides
of that link:

- **Phone side** (`DesktopDeviceSupport`). Music info is pushed to the notification
  characteristic. Repeated offers of the same object are debounced by object identity.
  A write on the message-sync characteristic that carries a `"sync"` entry starts a conversation
  sync. The sync builds one JSON frame per conversation with a positive message count: the thread
  header plus the SMS and MMS records dated after a watermark two days back, most recent first.
  The watermark is in milliseconds and MMS dates are in seconds, so in practice no MMS record
  passes (see "## Findings"). It writes the frames to a transaction builder and queues the
  builder once. Each record carries the contact's name and a Gravatar avatar URL. The URL holds
  the unpadded hexadecimal MD5 of the contact's email.
- **Desktop side** (`notification.js`). A characteristic that stores every written value.
  It picks a notification title and message from the JSON payload. It echoes the value to the
  subscriber while one is registered.

The sync is modelled as the code is written, including the two defects listed under
"## Findings": the group flag and the empty-content substitution of multimedia messages.
The intended rules are defined and proved beside them. A third defect, the unit of the MMS
date query, is modelled the same way.

Modules:

| module | file | contents |
|---|---|---|
| `Outcomes` | outcomes.dfy | `Option` and `Result` |
| `JavaLang` | java_lang.dfy | the Java library behaviour the core relies on: `Integer.parseInt`, `Long.parseLong`, `String.compareTo`, `replace`, `split(" ")`, `Integer.toHexString` |
| `MessageRecords` | message_records.dfy | `md5`, `getContactInfo`, `getSMSInfo`, `getMMSInfo`, `getMMSContent` |
| `MessageOrder` | message_order.dfy | the date comparator and the stable sort `Collections.sort` performs |
| `Gatt` | gatt.dfy | the transaction builder as a write log with a `queued` flag, and the queue |
| `ConversationSync` | conversation_sync.dfy | what `getAllSms` computes, as functions: frames, the conversation loop, where an exception stops it |
| `DesktopDevice` | desktop_device_support.dfy | the class `DesktopDeviceSupport`: the music debouncer, `onCharacteristicChanged` and the `getAllSms` loops as methods |
| `NotificationPeer` | notification_characteristic.dfy | the bleno notification characteristic as a class |

An exception that the Java code does not catch becomes the `Err` case of a `Result`
(`NumberFormatException`, `NullPointerException`, `JsonSyntaxException`). The same holds for the
`SyntaxError` and `TypeError` the JavaScript handler can throw. Content-provider queries become
sequences of rows. `PhoneNumberUtils.normalizeNumber`, the MD5 digest, the contact directory and
the reading of MMS text parts are fields of a `Platform` value. The clock is a parameter `now`.

## Model

| member | source | states |
|---|---|---|
| JavaLang.GetInt | app/src/main/java/nodomain/freeyourgadget/gadgetbridge/service/devices/desktop/DesktopDeviceSupport.java:298 | `Cursor.getInt` gives the one int in range that agrees with the stored value modulo 2^32, which is the value itself when it is in range |
| JavaLang.ParseIntString | app/src/main/java/nodomain/freeyourgadget/gadgetbridge/service/devices/desktop/DesktopDeviceSupport.java:616 | `Integer.parseInt` of the decimal text of an int column returns it when it lies in the int range, and throws `NumberFormatException` otherwise |
| JavaLang.ParseIntEmpty | app/src/main/java/nodomain/freeyourgadget/gadgetbridge/service/devices/desktop/DesktopDeviceSupport.java:674 | `Integer.parseInt("")` throws, which is what `getMMSInfo` meets when a message has no address row |
| JavaLang.CompareToAntisymmetric | app/src/main/java/nodomain/freeyourgadget/gadgetbridge/service/devices/desktop/DesktopDeviceSupport.java:376 | `String.compareTo` is antisymmetric, so the negated comparator is a valid order |
| JavaLang.CompareToZero | app/src/main/java/nodomain/freeyourgadget/gadgetbridge/service/devices/desktop/DesktopDeviceSupport.java:376 | `compareTo` returns 0 exactly for equal strings |
| JavaLang.CompareToTransitive | app/src/main/java/nodomain/freeyourgadget/gadgetbridge/service/devices/desktop/DesktopDeviceSupport.java:376 | `compareTo` is transitive, which `Collections.sort` requires of the comparator |
| JavaLang.RemoveAllAbsent | app/src/main/java/nodomain/freeyourgadget/gadgetbridge/service/devices/desktop/DesktopDeviceSupport.java:612 | `replace("+1", "")` leaves a string without "+" unchanged |
| JavaLang.RemoveAllChar | app/src/main/java/nodomain/freeyourgadget/gadgetbridge/service/devices/desktop/DesktopDeviceSupport.java:659 | `replace("-", "")` removes every dash and keeps every other character in order |
| JavaLang.SplitNoMatch | app/src/main/java/nodomain/freeyourgadget/gadgetbridge/service/devices/desktop/DesktopDeviceSupport.java:302 | `split(" ")` of a string without a space is the one-element array holding the string |
| JavaLang.SplitEmptyIff | app/src/main/java/nodomain/freeyourgadget/gadgetbridge/service/devices/desktop/DesktopDeviceSupport.java:302-304 | `split(" ")` returns an empty array exactly for a non-empty string made only of spaces |
| JavaLang.SplitJoin | app/src/main/java/nodomain/freeyourgadget/gadgetbridge/service/devices/desktop/DesktopDeviceSupport.java:302 | splitting space-separated non-empty ids gives back the ids |
| JavaLang.ToHexString | app/src/main/java/nodomain/freeyourgadget/gadgetbridge/service/devices/desktop/DesktopDeviceSupport.java:757 | `Integer.toHexString` gives a hexadecimal rendering of its argument, one digit below 16, at most two below 256 |
| JavaLang.Decimal | app/src/main/java/nodomain/freeyourgadget/gadgetbridge/service/devices/desktop/DesktopDeviceSupport.java:613 | a date column read as a string is its decimal digits, without leading zeros |
| MessageRecords.HexOfDigestLength | app/src/main/java/nodomain/freeyourgadget/gadgetbridge/service/devices/desktop/DesktopDeviceSupport.java:756-758 | the hex string has one digit per byte plus one per byte of 16 or more, so a 16-byte digest gives 16 to 32 characters |
| MessageRecords.HexOfDigestAppend | app/src/main/java/nodomain/freeyourgadget/gadgetbridge/service/devices/desktop/DesktopDeviceSupport.java:756-758 | the hex of consecutive bytes is the concatenation of their hex, as the loop appends one byte at a time |
| MessageRecords.HexOfDigestNotInjective | app/src/main/java/nodomain/freeyourgadget/gadgetbridge/service/devices/desktop/DesktopDeviceSupport.java:756-758 | without zero padding, two different 16-byte digests render as the same string: every digest starting 01 23 collides with the one starting 12 03 and ending the same |
| MessageRecords.Md5 | app/src/main/java/nodomain/freeyourgadget/gadgetbridge/service/devices/desktop/DesktopDeviceSupport.java:747-764 | the loop appends the unpadded hex of each digest byte in order, and the result has 16 to 32 characters |
| MessageRecords.DisplayName | app/src/main/java/nodomain/freeyourgadget/gadgetbridge/service/devices/desktop/DesktopDeviceSupport.java:466-468 | an empty or missing contact name becomes "Unknown"; any other name is kept |
| MessageRecords.GetContactInfo | app/src/main/java/nodomain/freeyourgadget/gadgetbridge/service/devices/desktop/DesktopDeviceSupport.java:441-481 | the image is the Gravatar URL of the md5 of the email, the name is never empty, and an unknown number gives "Unknown" and an empty email |
| MessageRecords.UnknownContact | app/src/main/java/nodomain/freeyourgadget/gadgetbridge/service/devices/desktop/DesktopDeviceSupport.java:447-468 | a number not in the directory gets the fallback identity, with the avatar of the empty email |
| MessageRecords.SmsDirection | app/src/main/java/nodomain/freeyourgadget/gadgetbridge/service/devices/desktop/DesktopDeviceSupport.java:614-628 | the direction is one of "inbox", "sent", "outbox" or "" |
| MessageRecords.SmsDirectionInverse | app/src/main/java/nodomain/freeyourgadget/gadgetbridge/service/devices/desktop/DesktopDeviceSupport.java:616-628 | INBOX, SENT and OUTBOX map to distinct directions that give the code back; every other code gives "" |
| MessageRecords.SmsRecordFields | app/src/main/java/nodomain/freeyourgadget/gadgetbridge/service/devices/desktop/DesktopDeviceSupport.java:608-639 | an SMS record fails only when the type is outside the int range; otherwise it copies the id as `getInt` reads it, the date and the body, strips "+1" from the normalised number and maps the type to a direction |
| MessageRecords.GetSmsInfo | app/src/main/java/nodomain/freeyourgadget/gadgetbridge/service/devices/desktop/DesktopDeviceSupport.java:608-639 | the method builds the record `SmsRecordFields` describes, or the exception of the type parse |
| MessageRecords.FirstNumeric | app/src/main/java/nodomain/freeyourgadget/gadgetbridge/service/devices/desktop/DesktopDeviceSupport.java:653-668 | the earliest address that parses as a long once its dashes are removed, and none exactly when no row has one |
| MessageRecords.LastPresent | app/src/main/java/nodomain/freeyourgadget/gadgetbridge/service/devices/desktop/DesktopDeviceSupport.java:653-668 | the latest non-null address, and none exactly when every address is null |
| MessageRecords.PickAddressCons | app/src/main/java/nodomain/freeyourgadget/gadgetbridge/service/devices/desktop/DesktopDeviceSupport.java:656-665 | one step of the backward walk: a numeric address overwrites the choice, any other non-null address fills only an empty choice |
| MessageRecords.SelectAddress | app/src/main/java/nodomain/freeyourgadget/gadgetbridge/service/devices/desktop/DesktopDeviceSupport.java:650-668 | the do-while loop from the last address row to the first leaves `PickAddress` of the rows in dirtyNumber, and the first row's type in type |
| MessageRecords.PickAddressChoice | app/src/main/java/nodomain/freeyourgadget/gadgetbridge/service/devices/desktop/DesktopDeviceSupport.java:653-668 | the chosen address is the earliest numeric one if any row has one, else the latest non-null one, and null exactly when all are null |
| MessageRecords.MmsBody | app/src/main/java/nodomain/freeyourgadget/gadgetbridge/service/devices/desktop/DesktopDeviceSupport.java:697-720 | the body fails exactly when some part has a null content type (`equals` on null) |
| MessageRecords.MmsBodyAppend | app/src/main/java/nodomain/freeyourgadget/gadgetbridge/service/devices/desktop/DesktopDeviceSupport.java:701-717 | the body of consecutive parts is the concatenation of their bodies |
| MessageRecords.GetMmsContent | app/src/main/java/nodomain/freeyourgadget/gadgetbridge/service/devices/desktop/DesktopDeviceSupport.java:697-720 | the loop appends "[Image]" per image part and the text of each text/plain part, in part order, and stops at a null content type; it also reports whether the returned String is still the "" literal, which holds exactly when no part appended anything |
| MessageRecords.MmsContent | app/src/main/java/nodomain/freeyourgadget/gadgetbridge/service/devices/desktop/DesktopDeviceSupport.java:686-690 | as intended, an empty body becomes "[Multimedia Item]" and any other body is kept |
| MessageRecords.NoAppendsEmptyBody | app/src/main/java/nodomain/freeyourgadget/gadgetbridge/service/devices/desktop/DesktopDeviceSupport.java:701-717 | parts that are neither images nor text give the empty body |
| MessageRecords.MmsContentAsWrittenDiffers | app/src/main/java/nodomain/freeyourgadget/gadgetbridge/service/devices/desktop/DesktopDeviceSupport.java:686-690 | the reference comparison differs from the intended one exactly when parts were appended and all were empty |
| MessageRecords.EmptyTextPartKeepsEmptyContent | app/src/main/java/nodomain/freeyourgadget/gadgetbridge/service/devices/desktop/DesktopDeviceSupport.java:686-690 | one text/plain part with empty text gives the content "" as written, where "[Multimedia Item]" was intended |
| MessageRecords.MmsDirection | app/src/main/java/nodomain/freeyourgadget/gadgetbridge/service/devices/desktop/DesktopDeviceSupport.java:673-676 | an MMS direction is "inbox" exactly for the INBOX code, else "sent" |
| MessageRecords.PduAddressTypesGiveSent | app/src/main/java/nodomain/freeyourgadget/gadgetbridge/service/devices/desktop/DesktopDeviceSupport.java:673-676 | a message whose first address row has any PDU address type, BCC (129), CC (130), FROM (137) or TO (151), none of which is the INBOX code 1, is always "sent" |
| MessageRecords.MmsRecordFields | app/src/main/java/nodomain/freeyourgadget/gadgetbridge/service/devices/desktop/DesktopDeviceSupport.java:641-695 | an MMS record fails without address rows, with a first row's type outside the int range, or with a null part type; otherwise its direction comes from the first address row and its number from the walk; its content is "[Multimedia Item]" exactly when no part appended anything, else the body, so it is "" when the appended texts were all empty; its id is the `_ID` column as `getInt` reads it, and its contact is the one for its number |
| MessageRecords.GetMmsInfo | app/src/main/java/nodomain/freeyourgadget/gadgetbridge/service/devices/desktop/DesktopDeviceSupport.java:641-695 | the method builds the record `MmsRecordFields` describes, comparing the content to "" by reference, or the exception it lets escape |
| MessageOrder.InsertSorted | app/src/main/java/nodomain/freeyourgadget/gadgetbridge/service/devices/desktop/DesktopDeviceSupport.java:360-380 | inserting a record into a date-descending list keeps it date-descending |
| MessageOrder.InsertMultiset | app/src/main/java/nodomain/freeyourgadget/gadgetbridge/service/devices/desktop/DesktopDeviceSupport.java:360-380 | inserting adds exactly the one record |
| MessageOrder.WithDateAppend | app/src/main/java/nodomain/freeyourgadget/gadgetbridge/service/devices/desktop/DesktopDeviceSupport.java:360-380 | the records of one date in a concatenation are those of each part, in order |
| MessageOrder.InsertWithDate | app/src/main/java/nodomain/freeyourgadget/gadgetbridge/service/devices/desktop/DesktopDeviceSupport.java:360-380 | insertion puts the new record before the later records of its own date |
| MessageOrder.SortByDateDescSorted | app/src/main/java/nodomain/freeyourgadget/gadgetbridge/service/devices/desktop/DesktopDeviceSupport.java:360-380 | the sorted messages are in descending order of their date strings and are a permutation of the input |
| MessageOrder.SortByDateDescStable | app/src/main/java/nodomain/freeyourgadget/gadgetbridge/service/devices/desktop/DesktopDeviceSupport.java:360-380 | records with equal date strings keep their insertion order, as `Collections.sort` is stable |
| MessageOrder.SortedUnique | app/src/main/java/nodomain/freeyourgadget/gadgetbridge/service/devices/desktop/DesktopDeviceSupport.java:360-380 | two date-descending lists with the same records per date, in the same order, are equal |
| MessageOrder.StableSortUnique | app/src/main/java/nodomain/freeyourgadget/gadgetbridge/service/devices/desktop/DesktopDeviceSupport.java:360-380 | any sorted list that keeps the per-date order of the input is the sort's result, so the model of `Collections.sort` is the only stable one |
| MessageOrder.DecimalCompare | app/src/main/java/nodomain/freeyourgadget/gadgetbridge/service/devices/desktop/DesktopDeviceSupport.java:376 | for dates of equal length in digits, string order is numeric order |
| MessageOrder.DecimalCompareLengths | app/src/main/java/nodomain/freeyourgadget/gadgetbridge/service/devices/desktop/DesktopDeviceSupport.java:376 | for dates of different length, string order need not be numeric order: "999" sorts after "1000" |
| ConversationSync.IsGroupAsWrittenBlankOnly | app/src/main/java/nodomain/freeyourgadget/gadgetbridge/service/devices/desktop/DesktopDeviceSupport.java:302-304 | as written, isGroup holds only for a non-empty recipient list made only of spaces |
| ConversationSync.IsGroupCountsRecipients | app/src/main/java/nodomain/freeyourgadget/gadgetbridge/service/devices/desktop/DesktopDeviceSupport.java:302-304 | for space-separated recipient ids, the intended isGroup holds exactly with more than one id, and the one as written never holds |
| ConversationSync.TwoRecipientsNotGroupAsWritten | app/src/main/java/nodomain/freeyourgadget/gadgetbridge/service/devices/desktop/DesktopDeviceSupport.java:302-304 | recipients "3 7" form a group as intended but not as written |
| ConversationSync.Where | app/src/main/java/nodomain/freeyourgadget/gadgetbridge/service/devices/desktop/DesktopDeviceSupport.java:310 | a query returns exactly the rows its where-clause keeps, never more than the store holds, and nothing when no row qualifies; the SMS query here and the MMS query at line 340 keep the rows of the thread dated after the watermark |
| ConversationSync.MmsQueryMissesSeconds | app/src/main/java/nodomain/freeyourgadget/gadgetbridge/service/devices/desktop/DesktopDeviceSupport.java:340 | as written, the MMS query compares dates in seconds with the millisecond watermark, so once the clock is four days past the epoch it selects no MMS dated up to now |
| ConversationSync.MmsQueryMillisSelectsRecent | app/src/main/java/nodomain/freeyourgadget/gadgetbridge/service/devices/desktop/DesktopDeviceSupport.java:340 | as intended, with the date converted to milliseconds, a message of the thread from the last two days is selected, where the query as written misses it |
| ConversationSync.CollectValues | app/src/main/java/nodomain/freeyourgadget/gadgetbridge/service/devices/desktop/DesktopDeviceSupport.java:311-338 | a cursor loop succeeds exactly when every row's record can be built, and then gives one record per row in row order |
| ConversationSync.CollectStep | app/src/main/java/nodomain/freeyourgadget/gadgetbridge/service/devices/desktop/DesktopDeviceSupport.java:311-338 | one more row appends its record, or its exception ends the loop |
| ConversationSync.CollectStop | app/src/main/java/nodomain/freeyourgadget/gadgetbridge/service/devices/desktop/DesktopDeviceSupport.java:311-338 | once a row throws, the later rows change nothing |
| ConversationSync.FrameOfContents | app/src/main/java/nodomain/freeyourgadget/gadgetbridge/service/devices/desktop/DesktopDeviceSupport.java:300-388 | a frame copies id, snippet and date from the row, and the count as `getInt` reads it; isGroup is `recipients.length == 0`, true only for a non-empty recipient list of spaces; its messages are the SMS records then the MMS records of the thread, sorted by date string descending, stable; a null recipient list throws |
| ConversationSync.Active | app/src/main/java/nodomain/freeyourgadget/gadgetbridge/service/devices/desktop/DesktopDeviceSupport.java:297-299 | the conversations that give a frame are exactly those whose message count, as `getInt` reads it, is positive, in order |
| ConversationSync.WrappedCountInactive | app/src/main/java/nodomain/freeyourgadget/gadgetbridge/service/devices/desktop/DesktopDeviceSupport.java:298-299 | a message_count of 2^31 reads back as Integer.MIN_VALUE, so that conversation gives no frame |
| ConversationSync.SyncFrames | app/src/main/java/nodomain/freeyourgadget/gadgetbridge/service/devices/desktop/DesktopDeviceSupport.java:296-393 | the k-th frame is the frame of the k-th row with a positive count; the first exception ends the loop on the next such row |
| ConversationSync.SyncSucceeds | app/src/main/java/nodomain/freeyourgadget/gadgetbridge/service/devices/desktop/DesktopDeviceSupport.java:296-393 | the sync succeeds exactly when every row with a positive count gets a frame |
| ConversationSync.SyncStep | app/src/main/java/nodomain/freeyourgadget/gadgetbridge/service/devices/desktop/DesktopDeviceSupport.java:297-390 | one more conversation row is one step of the loop |
| ConversationSync.SyncStop | app/src/main/java/nodomain/freeyourgadget/gadgetbridge/service/devices/desktop/DesktopDeviceSupport.java:296-393 | once a frame throws, the later rows change nothing |
| Gatt.BtleQueue.constructor | app/src/main/java/nodomain/freeyourgadget/gadgetbridge/service/devices/desktop/DesktopDeviceSupport.java:392 | a queue starts with no transaction |
| Gatt.TransactionBuilder.constructor | app/src/main/java/nodomain/freeyourgadget/gadgetbridge/service/devices/desktop/DesktopDeviceSupport.java:200 | a builder starts with no write and not queued |
| Gatt.TransactionBuilder.Write | app/src/main/java/nodomain/freeyourgadget/gadgetbridge/service/devices/desktop/DesktopDeviceSupport.java:388 | a write is appended to the builder's writes |
| Gatt.TransactionBuilder.Queue | app/src/main/java/nodomain/freeyourgadget/gadgetbridge/service/devices/desktop/DesktopDeviceSupport.java:392 | queueing hands the builder's writes to the queue as one transaction |
| DesktopDevice.FrameWrites | app/src/main/java/nodomain/freeyourgadget/gadgetbridge/service/devices/desktop/DesktopDeviceSupport.java:388 | the k-th write carries the k-th frame to the message-sync characteristic |
| DesktopDevice.FrameWritesSnoc | app/src/main/java/nodomain/freeyourgadget/gadgetbridge/service/devices/desktop/DesktopDeviceSupport.java:388 | one more frame appends one write |
| DesktopDevice.SyncTransactionContents | app/src/main/java/nodomain/freeyourgadget/gadgetbridge/service/devices/desktop/DesktopDeviceSupport.java:238-393 | a sync with a parsable cursor queues one message-sync write per conversation with a positive count, carrying its frame, in order; it fails exactly when the cursor does not parse or a frame throws |
| DesktopDevice.SyncNeedsCursor | app/src/main/java/nodomain/freeyourgadget/gadgetbridge/service/devices/desktop/DesktopDeviceSupport.java:204-216 | a sync is queued only for the message-sync characteristic and a decoded map with a non-null "sync" entry; any other characteristic queues nothing |
| DesktopDevice.PeerValueNeverSyncs | app/src/main/java/nodomain/freeyourgadget/gadgetbridge/service/devices/desktop/DesktopDeviceSupport.java:209 | the desktop peer's `{"sync1": 608}` never starts a sync |
| DesktopDevice.DesktopDeviceSupport.constructor | app/src/main/java/nodomain/freeyourgadget/gadgetbridge/service/devices/desktop/DesktopDeviceSupport.java:80-81 | both music buffers start null |
| DesktopDevice.DesktopDeviceSupport.SendMusicStateToDevice | app/src/main/java/nodomain/freeyourgadget/gadgetbridge/service/devices/desktop/DesktopDeviceSupport.java:180-194 | one transaction with the buffered music spec is queued on the notification characteristic; with nothing buffered, reading its fields throws before anything is queued |
| DesktopDevice.DesktopDeviceSupport.OnSetMusicState | app/src/main/java/nodomain/freeyourgadget/gadgetbridge/service/devices/desktop/DesktopDeviceSupport.java:151-163 | without music support nothing changes; otherwise a push happens and the buffer takes the offered object exactly when it is a different reference |
| DesktopDevice.DesktopDeviceSupport.OnSetMusicInfo | app/src/main/java/nodomain/freeyourgadget/gadgetbridge/service/devices/desktop/DesktopDeviceSupport.java:165-177 | without music support nothing changes; otherwise a push of the offered spec happens and the buffer takes it exactly when it is a different reference |
| DesktopDevice.DesktopDeviceSupport.CollectSms | app/src/main/java/nodomain/freeyourgadget/gadgetbridge/service/devices/desktop/DesktopDeviceSupport.java:310-338 | the SMS cursor loop gives `Collect` of the thread's SMS rows |
| DesktopDevice.DesktopDeviceSupport.CollectMms | app/src/main/java/nodomain/freeyourgadget/gadgetbridge/service/devices/desktop/DesktopDeviceSupport.java:340-357 | the MMS cursor loop gives `Collect` of the thread's MMS rows |
| DesktopDevice.DesktopDeviceSupport.BuildFrame | app/src/main/java/nodomain/freeyourgadget/gadgetbridge/service/devices/desktop/DesktopDeviceSupport.java:300-385 | the frame built for a row is the one `FrameOfContents` describes, with isGroup as written |
| DesktopDevice.DesktopDeviceSupport.WriteConversation | app/src/main/java/nodomain/freeyourgadget/gadgetbridge/service/devices/desktop/DesktopDeviceSupport.java:297-390 | one pass of the conversation loop writes the row's frame when its count is positive and the frame does not throw |
| DesktopDevice.DesktopDeviceSupport.GetAllSms | app/src/main/java/nodomain/freeyourgadget/gadgetbridge/service/devices/desktop/DesktopDeviceSupport.java:238-439 | an unparsable cursor throws before anything is written; otherwise the frames of `Sync` are written in order, and the builder is queued only when no frame throws |
| DesktopDevice.DesktopDeviceSupport.OnCharacteristicChanged | app/src/main/java/nodomain/freeyourgadget/gadgetbridge/service/devices/desktop/DesktopDeviceSupport.java:196-222 | queues the transaction of `ChangeOutcome`: a sync for a non-null "sync" entry on the message-sync characteristic, nothing otherwise; never reports the change as handled |
| DesktopDevice.RepeatedOfferPushesOnce | app/src/main/java/nodomain/freeyourgadget/gadgetbridge/service/devices/desktop/DesktopDeviceSupport.java:172-175 | offering the same music spec object twice pushes once |
| DesktopDevice.StateBeforeInfoThrows | app/src/main/java/nodomain/freeyourgadget/gadgetbridge/service/devices/desktop/DesktopDeviceSupport.java:158-161 | a music state offered before any music info throws and queues nothing |
| NotificationPeer.Get | desktop_app/electron/characteristics/notification.js:33-42 | reading one of the handler's keys gives the object's own property, or undefined |
| NotificationPeer.NoticeFor | desktop_app/electron/characteristics/notification.js:31-43 | unparsable data throws SyntaxError, JSON null throws TypeError, and only those fail |
| NotificationPeer.CallNotice | desktop_app/electron/characteristics/notification.js:37-39 | a payload with an own "number" shows its name as title and its number as message |
| NotificationPeer.MessageNotice | desktop_app/electron/characteristics/notification.js:40-42 | any other object shows its title and body |
| NotificationPeer.MusicJson | app/src/main/java/nodomain/freeyourgadget/gadgetbridge/service/devices/desktop/DesktopDeviceSupport.java:187 | the JSON of a music push has exactly the music spec's fields |
| NotificationPeer.MusicPushHasNoText | desktop_app/electron/characteristics/notification.js:37-42 | a music push from the phone shows neither a title nor a message |
| NotificationPeer.NotificationCharacteristic.constructor | desktop_app/electron/characteristics/notification.js:8-17 | the value starts empty and no callback is registered |
| NotificationPeer.NotificationCharacteristic.OnReadRequest | desktop_app/electron/characteristics/notification.js:21-25 | a read answers success with the current value |
| NotificationPeer.NotificationCharacteristic.OnWriteRequest | desktop_app/electron/characteristics/notification.js:27-53 | the data becomes the value; the notice follows the payload; the subscriber gets the value and the writer gets success only when parsing did not throw |
| NotificationPeer.NotificationCharacteristic.OnSubscribe | desktop_app/electron/characteristics/notification.js:55-62 | subscribing registers the callback |
| NotificationPeer.NotificationCharacteristic.OnUnsubscribe | desktop_app/electron/characteristics/notification.js:64-71 | unsubscribing clears the callback |
| NotificationPeer.WriteThenRead | desktop_app/electron/characteristics/notification.js:24-28 | a read after a write returns exactly the written bytes |
| NotificationPeer.EchoOnlyWhileSubscribed | desktop_app/electron/characteristics/notification.js:46-52 | a value is echoed to the subscriber only while it is subscribed, and never when parsing throws |

## Left out

- Android content-provider queries and cursors are rows given as sequences. Their "date DESC" order is taken to be the order the rows are given in.
- Cursors that are null (`smsCur`, `mmsCur`, `cAdd`, `curPart` at app/src/main/java/nodomain/freeyourgadget/gadgetbridge/service/devices/desktop/DesktopDeviceSupport.java:310-714) are not modelled. Each query is taken to return a cursor.
- A null `type` column in an MMS address row is not modelled: the column is an integer.
- `getMmsText` (app/src/main/java/nodomain/freeyourgadget/gadgetbridge/service/devices/desktop/DesktopDeviceSupport.java:721-745) reads a stream and is the platform function `partText`.
- `PhoneNumberUtils.normalizeNumber`, the MD5 digest algorithm, the contact lookup and the email lookup are platform functions. The first matching contact and its first email are the directory entry.
- Gson and `JSONObject` serialisation are left out. A write carries a `Payload` value instead of bytes. The decoding of the message-sync value is the `Decoded` datatype. JSON parsing in the desktop app is the `parse` function.
- JSON numbers are integers in `NotificationPeer.Json`. Floating point is not modelled.
- `System.currentTimeMillis` at app/src/main/java/nodomain/freeyourgadget/gadgetbridge/service/devices/desktop/DesktopDeviceSupport.java:241 is the parameter `now`.
- The unused `lastID` and `selection` at app/src/main/java/nodomain/freeyourgadget/gadgetbridge/service/devices/desktop/DesktopDeviceSupport.java:239-251 are not modelled, apart from the exception `parseInt` can throw.
- Logging, `logMessageContent` and `LOG.info` are left out.
- `onNotification`, `onSetCallState`, `initializeDevice`, `performInitialized` and the empty device-hook overrides at app/src/main/java/nodomain/freeyourgadget/gadgetbridge/service/devices/desktop/DesktopDeviceSupport.java:484-606 are transport wiring without behaviour to verify.
- The `IOException` and `JSONException` handlers are left out. The `IOException` of the UTF-8 encoding cannot arise. The comparator's `JSONException` (at app/src/main/java/nodomain/freeyourgadget/gadgetbridge/service/devices/desktop/DesktopDeviceSupport.java:369-374) arises only for a record without a "date" key, that is with a null date column, which the model does not have; the comparator reads the second date only after the first succeeds, so a dateless record compares equal to every record when it is the first argument and sorts as "" when it is the second. That breaks antisymmetry, and `Collections.sort` may then throw `IllegalArgumentException`. Such records are not modelled.
- DesktopDevice.DesktopDeviceSupport.OnSetMusicState, OnSetMusicInfo and OnCharacteristicChanged: `performInitialized` (at app/src/main/java/nodomain/freeyourgadget/gadgetbridge/service/devices/desktop/DesktopDeviceSupport.java:186 and :201) is assumed to connect and succeed. It is declared to throw `IOException` when the connection fails. The source then queues nothing, after `bufferMusicSpec` or `bufferMusicStateSpec` has already taken the new spec (at app/src/main/java/nodomain/freeyourgadget/gadgetbridge/service/devices/desktop/DesktopDeviceSupport.java:158-161 and :172-175), so a later offer of the same object is debounced and that push is never retried; and an incoming sync request is dropped before `getAllSms` runs. The model always pushes or syncs.
- MessageRecords.MmsRecordOf: the address and part rows of an MMS row are those stored under its `_ID`. The source queries them by the id `getInt` gives, so for an `_ID` outside the int range it reads the rows of another id; the model does not capture that.
- NotificationPeer.MusicJson: Gson leaves null fields out of its JSON by default, and `MusicSpec`'s artist, album and track may be null. The model's strings are always present, so "exactly the music spec's fields" holds only for a spec whose strings are non-null.
- JavaLang.ParseInt: only the ASCII digits '0' to '9' count as digits, in `ParseInt` and `IsLong` alike, while Java's `Integer.parseInt` and `Long.parseLong` accept every Unicode decimal digit through `Character.digit`. A sync cursor or an address written in other digits throws in the model where the source parses it.
- JavaLang.CompareTo: strings are sequences of Unicode scalar values, not of UTF-16 code units, so outside the Basic Multilingual Plane the model's order can differ from `String.compareTo`.
- MessageRecords.GetMmsContent: the `literal` flag assumes the identity rule of section 15.18.1 of the Java Language Specification, under which every string concatenation makes a new String. A runtime whose `StringBuilder.toString` returns the interned "" for an empty result would make `content == ""` true for an empty body and substitute "[Multimedia Item]" as intended.
- Null columns are not modelled: the SMS date, body and type, the MMS date, the conversation snippet and the email DATA column always hold a value. In the source a null SMS type throws `NumberFormatException` at `parseInt`, a null email throws `NullPointerException` in `md5` at `s.getBytes()`, and a null snippet, body or date drops its key from the JSON object.
- The desktop notifier popups (`notifier.notify`) are left out. `OnWriteRequest` returns the `Notice` it would show.
- `desktop_app/electron/characteristics/messageSync.js` is not part of this model, apart from the value its subscribe handler writes: `DesktopDevice.PeerSubscribeValue`.
- MessageOrder.SortByDateDesc: `Collections.sort` sorts the list in place. It is modelled as a function on sequences, and the sorted list is what the frame holds.
- NotificationPeer.NotificationCharacteristic.OnWriteRequest: the offset and withoutResponse arguments are ignored, as notification.js ignores them.

## Findings

| source | as written | input that shows it | evidently intended | confidence | as-written member | corrected member |
|---|---|---|---|---|---|---|
| app/src/main/java/nodomain/freeyourgadget/gadgetbridge/service/devices/desktop/DesktopDeviceSupport.java:686 | `content == ""` compares references, so it holds only while the body is still the "" literal of `getMMSContent` | one text/plain part whose text column is "" | an empty body becomes "[Multimedia Item]" | low, not executed: holds under the identity rule of section 15.18.1 of the Java Language Specification; a runtime that returns the interned "" for an empty concatenation would not show it | MessageRecords.EmptyTextPartKeepsEmptyContent | MessageRecords.MmsContent |
| app/src/main/java/nodomain/freeyourgadget/gadgetbridge/service/devices/desktop/DesktopDeviceSupport.java:304 | `recipients.length == 0` holds only for a non-empty recipient list of spaces | recipient ids "3 7" | a conversation with more than one recipient is a group | medium, not executed | ConversationSync.TwoRecipientsNotGroupAsWritten | ConversationSync.IsGroupCountsRecipients |
| app/src/main/java/nodomain/freeyourgadget/gadgetbridge/service/devices/desktop/DesktopDeviceSupport.java:340 | the MMS query compares `Telephony.Mms.DATE`, which is in seconds, with the watermark of line 241, which is in milliseconds | any MMS dated up to now, once the clock is four days past the epoch | the MMS query selects the messages of the last two days | medium, not executed: relies on the MMS provider storing dates in seconds | ConversationSync.MmsQueryMissesSeconds | ConversationSync.MmsQueryMillisSelectsRecent |
