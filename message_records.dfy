/**
 * The record builders of the desktop device support: one JSON record per
 * short message (getSMSInfo) and per multimedia message (getMMSInfo, with
 * getMMSContent and the address walk), each enriched with the sender's
 * contact identity (getContactInfo, md5).
 *
 * The content providers are given as rows; the platform services the code
 * calls into (phone-number normalisation, the contact directory, the MD5
 * digest, reading a part's text stream) are fields of a Platform value.
 */
module MessageRecords {
  import opened Outcomes
  import opened JavaLang

  /** Telephony.Sms.MESSAGE_TYPE_INBOX, _SENT and _OUTBOX. */
  const MessageTypeInbox: int := 1
  const MessageTypeSent: int := 2
  const MessageTypeOutbox: int := 4

  const UnknownName: string := "Unknown"
  const GravatarPrefix: string := "https://www.gravatar.com/avatar/"
  const GravatarSuffix: string := "?s=55"
  const MultimediaItem: string := "[Multimedia Item]"
  const ImageLabel: string := "[Image]"
  const TextPlain: string := "text/plain"

  /** An MD5 digest: sixteen bytes. */
  type Digest = d: seq<bv8> | |d| == 16 witness [0, 0, 0, 0, 0, 0, 0, 0, 0, 0, 0, 0, 0, 0, 0, 0]

  /** What the contact directory holds for a phone number: the display name and the first email, if any. */
  datatype Contact = Contact(name: Option<string>, email: Option<string>)

  /** The platform services the record builders call into. */
  datatype Platform = Platform(
    normalize: Option<string> -> string,  // PhoneNumberUtils.normalizeNumber (None is a null argument)
    directory: map<string, Contact>,      // PhoneLookup by number, then the Email table by contact id
    md5: string -> Digest,                // MessageDigest "MD5" over s.getBytes()
    partText: string -> string)           // getMmsText: the text stream of a part, by part id

  /** The identity fields getContactInfo puts: "image", "name" and "email". */
  datatype ContactInfo = ContactInfo(image: string, name: string, email: string)

  /** One message record as getSMSInfo / getMMSInfo build it. */
  datatype MessageRecord = MessageRecord(
    contact: ContactInfo,
    messageId: int,
    date: string,
    number: string,
    direction: string,
    content: string)

  /** A row of content://sms/: _id (as stored; getInt reads it), thread_id, address, date (ms), body and type. */
  datatype SmsRow = SmsRow(id: int, threadId: string, address: Option<string>, date: nat, body: string, typeCode: int)

  /** A row of content://mms/<id>/addr: the address (may be null) and its type column. */
  datatype AddressRow = AddressRow(address: Option<string>, kind: int)

  /** A row of content://mms/part: _id, the content type (column 3, may be null), _data and text. */
  datatype PartRow = PartRow(id: string, contentType: Option<string>, data: Option<string>, text: Option<string>)

  /**
   * A row of content://mms/ with the address and part rows that belong to it.
   * Its date is in seconds since the epoch, as the MMS provider stores it;
   * its _id is as stored, and getInt reads it.
   */
  datatype MmsRow = MmsRow(id: int, threadId: string, date: nat, addresses: seq<AddressRow>, parts: seq<PartRow>)

  // ---------------------------------------------------------------------------
  // md5: the digest rendered as unpadded hexadecimal
  // ---------------------------------------------------------------------------

  /** Integer.toHexString(0xFF & b) of every byte, concatenated: no zero padding. */
  function HexOfDigest(d: seq<bv8>): string
  {
    if d == [] then "" else HexOfDigest(d[..|d| - 1]) + ToHexString(d[|d| - 1] as nat)
  }

  /** The number of bytes that need two hexadecimal digits. */
  function WideBytes(d: seq<bv8>): nat
  {
    if d == [] then 0 else WideBytes(d[..|d| - 1]) + (if d[|d| - 1] as nat >= 16 then 1 else 0)
  }

  /** Each byte gives one digit, two when it is 16 or more. */
  lemma {:induction false} HexOfDigestLength(d: seq<bv8>)
    ensures |HexOfDigest(d)| == |d| + WideBytes(d)
    ensures WideBytes(d) <= |d|
  {
    if d != [] {
      HexOfDigestLength(d[..|d| - 1]);
    }
  }

  /** The rendering of consecutive bytes is the concatenation of their renderings. */
  lemma {:induction false} HexOfDigestAppend(a: seq<bv8>, b: seq<bv8>)
    ensures HexOfDigest(a + b) == HexOfDigest(a) + HexOfDigest(b)
  {
    if b == [] {
      assert a + b == a;
    } else {
      var init := b[..|b| - 1];
      assert (a + b)[..|a + b| - 1] == a + init;
      assert (a + b)[|a + b| - 1] == b[|b| - 1];
      HexOfDigestAppend(a, init);
    }
  }

  /**
   * Without padding two different digests can share one rendering: every
   * digest starting 01 23 renders like the one starting 12 03 with the same
   * fourteen bytes after it (both begin "123").
   */
  lemma HexOfDigestNotInjective(d: Digest)
    requires d[..2] == [0x01, 0x23]
    ensures var e: Digest := [0x12, 0x03] + d[2..]; e != d && HexOfDigest(e) == HexOfDigest(d)
  {
    var e: Digest := [0x12, 0x03] + d[2..];
    assert d == d[..2] + d[2..];
    HexOfDigestAppend(d[..2], d[2..]);
    HexOfDigestAppend([0x12, 0x03], d[2..]);
    assert [0x01, 0x23 as bv8][..1] == [0x01];
    assert [0x12, 0x03 as bv8][..1] == [0x12];
    assert ToHexString(0x23) == "23";
    assert ToHexString(0x12) == "12";
    assert HexOfDigest(d[..2]) == "123" == HexOfDigest([0x12, 0x03]);
    assert e[0] != d[0];
  }

  /** md5(s): the hexadecimal string of the digest of s, built one byte at a time. */
  method Md5(p: Platform, s: string) returns (hex: string)
    ensures hex == HexOfDigest(p.md5(s))
    ensures 16 <= |hex| <= 32
  {
    var digest := p.md5(s);
    hex := "";
    for i := 0 to |digest|
      invariant hex == HexOfDigest(digest[..i])
    {
      assert digest[..i + 1][..i] == digest[..i];
      hex := hex + ToHexString(digest[i] as nat);
    }
    assert digest[..|digest|] == digest;
    HexOfDigestLength(digest);
  }

  // ---------------------------------------------------------------------------
  // getContactInfo
  // ---------------------------------------------------------------------------

  /** An empty or missing display name becomes "Unknown" (StringUtils.isEmpty). */
  function DisplayName(name: Option<string>): (r: string)
    ensures r != ""
    ensures name.Some? && name.value != "" ==> r == name.value
    ensures r == UnknownName <==> name.None? || name.value in {"", UnknownName}
  {
    if name.None? || name.value == "" then UnknownName else name.value
  }

  function GravatarUrl(hex: string): string
  {
    GravatarPrefix + hex + GravatarSuffix
  }

  /** The email found for the number, or "" when the number or its email is not found. */
  function ContactEmail(p: Platform, number: string): string
  {
    if number in p.directory && p.directory[number].email.Some? then p.directory[number].email.value else ""
  }

  function ContactName(p: Platform, number: string): Option<string>
  {
    if number in p.directory then p.directory[number].name else None
  }

  /** The identity getContactInfo returns for a number. */
  function ContactInfoOf(p: Platform, number: string): ContactInfo
  {
    var email := ContactEmail(p, number);
    ContactInfo(GravatarUrl(HexOfDigest(p.md5(email))), DisplayName(ContactName(p, number)), email)
  }

  method GetContactInfo(p: Platform, number: string) returns (info: ContactInfo)
    ensures info == ContactInfoOf(p, number)
    ensures info.name != ""
    ensures number !in p.directory ==> info.name == UnknownName && info.email == ""
    ensures info.image[..|GravatarPrefix|] == GravatarPrefix
    ensures info.image[|info.image| - |GravatarSuffix|..] == GravatarSuffix
    ensures |GravatarPrefix| + 16 + |GravatarSuffix| <= |info.image| <= |GravatarPrefix| + 32 + |GravatarSuffix|
  {
    var name := ContactName(p, number);
    var email := ContactEmail(p, number);
    var hex := Md5(p, email);
    var image := GravatarPrefix + hex + GravatarSuffix;
    info := ContactInfo(image, DisplayName(name), email);
  }

  /** An unknown number gets the fallback identity, whose avatar is the one of the empty email. */
  lemma UnknownContact(p: Platform, number: string)
    requires number !in p.directory
    ensures ContactInfoOf(p, number) == ContactInfo(GravatarUrl(HexOfDigest(p.md5(""))), UnknownName, "")
  {
  }

  // ---------------------------------------------------------------------------
  // getSMSInfo
  // ---------------------------------------------------------------------------

  /** The number a record carries: the normalised address with every "+1" removed. */
  function Number(p: Platform, address: Option<string>): string
  {
    RemoveAll(p.normalize(address), "+1")
  }

  /** The switch on the SMS type code. */
  function SmsDirection(t: int): (r: string)
    ensures r in {"inbox", "sent", "outbox", ""}
  {
    if t == MessageTypeInbox then "inbox"
    else if t == MessageTypeSent then "sent"
    else if t == MessageTypeOutbox then "outbox"
    else ""
  }

  /** The type code a direction stands for: the inverse of SmsDirection. */
  function DirectionType(direction: string): Option<int>
  {
    if direction == "inbox" then Some(MessageTypeInbox)
    else if direction == "sent" then Some(MessageTypeSent)
    else if direction == "outbox" then Some(MessageTypeOutbox)
    else None
  }

  /** INBOX, SENT and OUTBOX are told apart and recovered; every other code gives "". */
  lemma SmsDirectionInverse(t: int)
    ensures DirectionType(SmsDirection(t)) ==
      if t in {MessageTypeInbox, MessageTypeSent, MessageTypeOutbox} then Some(t) else None
    ensures SmsDirection(t) == "" <==> t !in {MessageTypeInbox, MessageTypeSent, MessageTypeOutbox}
  {
  }

  /** The record getSMSInfo builds, or the exception Integer.parseInt of the type column throws. */
  function SmsRecordOf(p: Platform, row: SmsRow): Result<MessageRecord, Exception>
  {
    var number := Number(p, row.address);
    match ParseInt(IntString(row.typeCode))
    case Err(e) => Err(e)
    case Ok(t) =>
      Ok(MessageRecord(ContactInfoOf(p, number), GetInt(row.id), Decimal(row.date), number, SmsDirection(t), row.body))
  }

  /** A short message fails only on a type code outside the int range; otherwise its fields are copied and mapped. */
  lemma SmsRecordFields(p: Platform, row: SmsRow)
    ensures SmsRecordOf(p, row).Ok? <==> IntMin <= row.typeCode <= IntMax
    ensures SmsRecordOf(p, row).Ok? ==>
      var r := SmsRecordOf(p, row).value;
      && r.direction == SmsDirection(row.typeCode)
      && r.messageId == GetInt(row.id)
      && r.date == Decimal(row.date)
      && r.content == row.body
      && r.number == Number(p, row.address)
      && r.contact == ContactInfoOf(p, r.number)
  {
    ParseIntString(row.typeCode);
  }

  method GetSmsInfo(p: Platform, row: SmsRow) returns (r: Result<MessageRecord, Exception>)
    ensures r == SmsRecordOf(p, row)
  {
    var number := Number(p, row.address);
    var date := Decimal(row.date);
    var parsed := ParseInt(IntString(row.typeCode));
    if parsed.Err? {
      return Err(parsed.error);
    }
    var direction := SmsDirection(parsed.value);
    var contact := GetContactInfo(p, number);
    r := Ok(MessageRecord(contact, GetInt(row.id), date, number, direction, row.body));
  }

  // ---------------------------------------------------------------------------
  // getMMSInfo: the address walk
  // ---------------------------------------------------------------------------

  /** Long.parseLong(address.replace("-", "")) returns normally. */
  predicate IsNumeric(address: string)
  {
    IsLong(RemoveAll(address, "-"))
  }

  predicate NumericRow(row: AddressRow)
  {
    row.address.Some? && IsNumeric(row.address.value)
  }

  /** The address of the earliest row whose address is numeric. */
  function FirstNumeric(rows: seq<AddressRow>): (r: Option<string>)
    ensures r.None? <==> forall i :: 0 <= i < |rows| ==> !NumericRow(rows[i])
    ensures r.Some? ==> exists i :: 0 <= i < |rows| && NumericRow(rows[i]) && rows[i].address == r &&
                                    forall j :: 0 <= j < i ==> !NumericRow(rows[j])
  {
    if rows == [] then None
    else if NumericRow(rows[0]) then rows[0].address
    else
      var r := FirstNumeric(rows[1..]);
      assert forall i :: 1 <= i < |rows| ==> rows[i] == rows[1..][i - 1];
      r
  }

  /** The address of the latest row whose address is not null. */
  function LastPresent(rows: seq<AddressRow>): (r: Option<string>)
    ensures r.None? <==> forall i :: 0 <= i < |rows| ==> rows[i].address.None?
    ensures r.Some? ==> exists i :: 0 <= i < |rows| && rows[i].address == r &&
                                    forall j :: i < j < |rows| ==> rows[j].address.None?
  {
    if rows == [] then None
    else
      var later := LastPresent(rows[1..]);
      assert forall i :: 1 <= i < |rows| ==> rows[i] == rows[1..][i - 1];
      if later.Some? then later else rows[0].address
  }

  /**
   * What the walk from the last row to the first leaves in dirtyNumber: the
   * earliest numeric address if there is one, else the latest non-null one.
   */
  function PickAddress(rows: seq<AddressRow>): Option<string>
  {
    if FirstNumeric(rows).Some? then FirstNumeric(rows) else LastPresent(rows)
  }

  /** What the walk leaves in type: the type column of the first row (visited last), or "" with no row. */
  function TypeText(rows: seq<AddressRow>): string
  {
    if rows == [] then "" else IntString(rows[0].kind)
  }

  /** One step of the walk: a numeric address always overwrites, another non-null one only an empty choice. */
  function AddressStep(row: AddressRow, chosen: Option<string>): Option<string>
  {
    if row.address.None? then chosen
    else if IsNumeric(row.address.value) then row.address
    else if chosen.None? then row.address
    else chosen
  }

  lemma PickAddressCons(row: AddressRow, rest: seq<AddressRow>)
    ensures PickAddress([row] + rest) == AddressStep(row, PickAddress(rest))
  {
    var rows := [row] + rest;
    assert rows[1..] == rest;
    if row.address.Some? && !IsNumeric(row.address.value) && PickAddress(rest).None? {
      assert LastPresent(rest).None?;
    }
  }

  /** The do-while loop over the address rows, from the last row to the first. */
  method SelectAddress(rows: seq<AddressRow>) returns (dirtyNumber: Option<string>, typeText: string)
    ensures dirtyNumber == PickAddress(rows)
    ensures typeText == TypeText(rows)
  {
    dirtyNumber := None;
    typeText := "";
    var i := |rows|;
    while i > 0
      invariant 0 <= i <= |rows|
      invariant dirtyNumber == PickAddress(rows[i..])
      invariant typeText == TypeText(rows[i..])
    {
      i := i - 1;
      var row := rows[i];
      typeText := IntString(row.kind);
      if row.address.Some? {
        if IsNumeric(row.address.value) {
          dirtyNumber := row.address;
        } else if dirtyNumber.None? {
          dirtyNumber := row.address;
        }
      }
      assert rows[i..] == [rows[i]] + rows[i + 1..];
      PickAddressCons(rows[i], rows[i + 1..]);
    }
  }

  /** The net effect of the walk, stated on row indices. */
  lemma PickAddressChoice(rows: seq<AddressRow>)
    ensures (exists i :: 0 <= i < |rows| && NumericRow(rows[i])) ==>
      exists i :: 0 <= i < |rows| && NumericRow(rows[i]) && PickAddress(rows) == rows[i].address &&
                  forall j :: 0 <= j < i ==> !NumericRow(rows[j])
    ensures (forall i :: 0 <= i < |rows| ==> !NumericRow(rows[i])) ==> PickAddress(rows) == LastPresent(rows)
    ensures PickAddress(rows).None? <==> forall i :: 0 <= i < |rows| ==> rows[i].address.None?
  {
  }

  // ---------------------------------------------------------------------------
  // getMMSContent
  // ---------------------------------------------------------------------------

  predicate IsImageType(ct: string)
  {
    ct == "image/jpeg" || ct == "image/png" || ct == "image/gif"
  }

  /**
   * What one part appends to the body: "[Image]" for an image, the text of a
   * text/plain part (from its stream when _data is set, else the text column,
   * where Java's concatenation turns null into "null"), nothing otherwise.
   * A null content type throws when .equals is called on it.
   */
  function PartText(p: Platform, part: PartRow): Result<string, Exception>
  {
    match part.contentType
    case None => Err(NullPointerException)
    case Some(ct) =>
      if IsImageType(ct) then Ok(ImageLabel)
      else if ct == TextPlain then
        if part.data.Some? then Ok(p.partText(part.id))
        else Ok(match part.text case Some(t) => t case None => "null")
      else Ok("")
  }

  /** The body getMMSContent accumulates over the parts, in order. */
  function MmsBody(p: Platform, parts: seq<PartRow>): (r: Result<string, Exception>)
    ensures r.Err? <==> exists i :: 0 <= i < |parts| && parts[i].contentType.None?
    ensures r.Err? ==> r.error == NullPointerException
  {
    if parts == [] then Ok("")
    else
      var init := parts[..|parts| - 1];
      assert forall i :: 0 <= i < |init| ==> init[i] == parts[i];
      match MmsBody(p, init)
      case Err(e) => Err(e)
      case Ok(b) =>
        match PartText(p, parts[|parts| - 1])
        case Err(e) => Err(e)
        case Ok(t) => Ok(b + t)
  }

  /** The body of consecutive parts is the concatenation of their bodies. */
  lemma {:induction false} MmsBodyAppend(p: Platform, a: seq<PartRow>, b: seq<PartRow>)
    ensures MmsBody(p, a + b) ==
      if MmsBody(p, a).Ok? && MmsBody(p, b).Ok? then Ok(MmsBody(p, a).value + MmsBody(p, b).value)
      else Err(NullPointerException)
  {
    if b == [] {
      assert a + b == a;
      if MmsBody(p, a).Ok? {
        assert MmsBody(p, a).value + "" == MmsBody(p, a).value;
      }
    } else {
      var b', last := b[..|b| - 1], b[|b| - 1];
      assert (a + b)[..|a + b| - 1] == a + b';
      assert (a + b)[|a + b| - 1] == last;
      MmsBodyAppend(p, a, b');
      if MmsBody(p, a).Ok? && MmsBody(p, b').Ok? && PartText(p, last).Ok? {
        var x, y, t := MmsBody(p, a).value, MmsBody(p, b').value, PartText(p, last).value;
        assert MmsBody(p, a + b) == Ok((x + y) + t);
        assert MmsBody(p, b) == Ok(y + t);
        assert (x + y) + t == x + (y + t);
      }
    }
  }

  /**
   * getMMSContent. Besides the body, literal tells whether the String returned
   * is still the "" literal the method started from: Java's concatenation
   * makes a new String every time, so literal holds exactly when no part
   * appended anything, even an empty text.
   */
  method GetMmsContent(p: Platform, parts: seq<PartRow>) returns (body: Result<string, Exception>, literal: bool)
    ensures body == MmsBody(p, parts)
    ensures body.Ok? ==> (literal <==> forall i :: 0 <= i < |parts| ==> !Appends(parts[i]))
  {
    var text := "";
    literal := true;
    for i := 0 to |parts|
      invariant MmsBody(p, parts[..i]) == Ok(text)
      invariant literal <==> forall j :: 0 <= j < i ==> !Appends(parts[j])
    {
      assert parts[..i + 1][..i] == parts[..i];
      var part := parts[i];
      if part.contentType.None? {
        assert parts[i] == parts[..i + 1][i];
        MmsBodyAppend(p, parts[..i + 1], parts[i + 1..]);
        assert parts[..i + 1] + parts[i + 1..] == parts;
        return Err(NullPointerException), literal;
      }
      var ct := part.contentType.value;
      ghost var before := text;
      if IsImageType(ct) {
        text := text + ImageLabel;
        literal := false;
      } else if ct == TextPlain {
        if part.data.Some? {
          text := text + p.partText(part.id);
        } else {
          text := text + (if part.text.Some? then part.text.value else "null");
        }
        literal := false;
      } else {
        text := text + "";
      }
      assert PartText(p, part) == Ok(text[|before|..]);
      assert text == before + text[|before|..];
    }
    assert parts[..|parts|] == parts;
    body := Ok(text);
  }

  // ---------------------------------------------------------------------------
  // getMMSInfo: content substitution (see the finding in README.md)
  // ---------------------------------------------------------------------------

  /** A part that appends to the body: an image or a text/plain part. */
  predicate Appends(part: PartRow)
  {
    part.contentType.Some? && (IsImageType(part.contentType.value) || part.contentType.value == TextPlain)
  }

  /**
   * The substitution as written: `content == ""` compares references, so it
   * holds only while the body is still the "" literal getMMSContent started
   * from, that is when no part appended anything.
   */
  function MmsContentAsWritten(p: Platform, parts: seq<PartRow>): Result<string, Exception>
  {
    match MmsBody(p, parts)
    case Err(e) => Err(e)
    case Ok(b) => Ok(if forall i :: 0 <= i < |parts| ==> !Appends(parts[i]) then MultimediaItem else b)
  }

  /** The substitution as intended: an empty body becomes "[Multimedia Item]". */
  function MmsContent(body: string): (r: string)
    ensures r != ""
    ensures body != "" ==> r == body
  {
    if body == "" then MultimediaItem else body
  }

  lemma {:induction false} NoAppendsEmptyBody(p: Platform, parts: seq<PartRow>)
    requires forall i :: 0 <= i < |parts| ==> parts[i].contentType.Some? && !Appends(parts[i])
    ensures MmsBody(p, parts) == Ok("")
  {
    if parts != [] {
      var init := parts[..|parts| - 1];
      NoAppendsEmptyBody(p, init);
      assert PartText(p, parts[|parts| - 1]) == Ok("");
      assert MmsBody(p, parts) == Ok(MmsBody(p, init).value + "");
      assert "" + "" == "";
    }
  }

  /** The two substitutions differ exactly when parts were appended and all of them were empty. */
  lemma MmsContentAsWrittenDiffers(p: Platform, parts: seq<PartRow>)
    requires MmsBody(p, parts).Ok?
    ensures MmsContentAsWritten(p, parts) != Ok(MmsContent(MmsBody(p, parts).value)) <==>
            MmsBody(p, parts).value == "" && exists i :: 0 <= i < |parts| && Appends(parts[i])
  {
    if forall i :: 0 <= i < |parts| ==> !Appends(parts[i]) {
      NoAppendsEmptyBody(p, parts);
    }
  }

  /** One text/plain part with an empty text column: the record's content stays "" as written. */
  lemma EmptyTextPartKeepsEmptyContent(p: Platform)
    ensures var parts := [PartRow("1", Some(TextPlain), None, Some(""))];
      && MmsBody(p, parts) == Ok("")
      && MmsContentAsWritten(p, parts) == Ok("")
      && MmsContent(MmsBody(p, parts).value) == MultimediaItem
  {
    var parts := [PartRow("1", Some(TextPlain), None, Some(""))];
    assert parts[..0] == [];
    assert PartText(p, parts[0]) == Ok("");
    assert MmsBody(p, parts) == Ok("" + "");
    assert "" + "" == "";
    assert Appends(parts[0]);
  }

  // ---------------------------------------------------------------------------
  // getMMSInfo
  // ---------------------------------------------------------------------------

  /** PduHeaders.BCC, CC, FROM and TO: the type codes the MMS address table holds. */
  const PduBcc: int := 129
  const PduCc: int := 130
  const PduFrom: int := 137
  const PduTo: int := 151

  /** The direction of a multimedia message: "inbox" exactly for the INBOX code, else "sent". */
  function MmsDirection(t: int): (r: string)
    ensures r == "inbox" <==> t == MessageTypeInbox
    ensures r in {"inbox", "sent"}
  {
    if t == MessageTypeInbox then "inbox" else "sent"
  }

  /** The record getMMSInfo builds, or the exception it lets escape. */
  function MmsRecordOf(p: Platform, row: MmsRow): Result<MessageRecord, Exception>
  {
    match ParseInt(TypeText(row.addresses))
    case Err(e) => Err(e)
    case Ok(t) =>
      var number := Number(p, PickAddress(row.addresses));
      match MmsContentAsWritten(p, row.parts)
      case Err(e) => Err(e)
      case Ok(content) =>
        Ok(MessageRecord(ContactInfoOf(p, number), GetInt(row.id), Decimal(row.date), number, MmsDirection(t), content))
  }

  /**
   * A multimedia message fails without address rows (Integer.parseInt("")),
   * with a first address row whose type is outside the int range, or with a
   * part of null content type; otherwise its direction comes from the first
   * address row, and its content is "[Multimedia Item]" exactly when no part
   * appended anything, else the body, which is empty when every appended
   * text was.
   */
  lemma MmsRecordFields(p: Platform, row: MmsRow)
    ensures row.addresses == [] ==> MmsRecordOf(p, row) == Err(NumberFormatException(""))
    ensures MmsRecordOf(p, row).Ok? <==>
      && row.addresses != []
      && IntMin <= row.addresses[0].kind <= IntMax
      && forall i :: 0 <= i < |row.parts| ==> row.parts[i].contentType.Some?
    ensures MmsRecordOf(p, row).Ok? ==>
      var r := MmsRecordOf(p, row).value;
      && r.direction == MmsDirection(row.addresses[0].kind)
      && r.number == Number(p, PickAddress(row.addresses))
      && r.content == (if forall i :: 0 <= i < |row.parts| ==> !Appends(row.parts[i]) then MultimediaItem
                       else MmsBody(p, row.parts).value)
      && (r.content == "" <==> MmsBody(p, row.parts).value == "" && exists i :: 0 <= i < |row.parts| && Appends(row.parts[i]))
      && r.messageId == GetInt(row.id)
      && r.date == Decimal(row.date)
      && r.contact == ContactInfoOf(p, r.number)
  {
    if row.addresses != [] {
      ParseIntString(row.addresses[0].kind);
    }
  }

  /**
   * The address table holds PDU type codes, never the INBOX code 1, so a
   * message whose first address row has any of those codes is "sent".
   */
  lemma PduAddressTypesGiveSent(p: Platform, row: MmsRow)
    requires row.addresses != [] && row.addresses[0].kind in {PduBcc, PduCc, PduFrom, PduTo}
    ensures MmsRecordOf(p, row).Ok? ==> MmsRecordOf(p, row).value.direction == "sent"
  {
    ParseIntString(row.addresses[0].kind);
  }

  method GetMmsInfo(p: Platform, row: MmsRow) returns (r: Result<MessageRecord, Exception>)
    ensures r == MmsRecordOf(p, row)
  {
    var dirtyNumber, typeText := SelectAddress(row.addresses);
    var parsed := ParseInt(typeText);
    if parsed.Err? {
      return Err(parsed.error);
    }
    var direction := "sent";
    if parsed.value == MessageTypeInbox {
      direction := "inbox";
    }
    var number := Number(p, dirtyNumber);
    var date := Decimal(row.date);
    var content, literal := GetMmsContent(p, row.parts);
    if content.Err? {
      return Err(content.error);
    }
    var contact := GetContactInfo(p, number);
    // `content == ""` compares references: it holds only for the literal itself.
    r := Ok(MessageRecord(contact, GetInt(row.id), date, number, direction, if literal then MultimediaItem else content.value));
  }
}
