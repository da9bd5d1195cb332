/**
 * What the pages share: JavaScript's rendering of a missing value, its
 * truthiness fallback, `encodeURIComponent`, the tab's session storage, the
 * shape of a form submission and of a `fetch` answer, and the address of
 * the shared-editor page.
 */
module Browser {
  import opened Wrappers

  /** A string value that may be null; null renders as "null" in a template or `setItem`. */
  function JsString(s: Option<string>): (r: string)
    ensures s.Some? ==> r == s.value
    ensures s.None? ==> r == "null"
  {
    s.GetOr("null")
  }

  /** `s || fallback`: a string is truthy when it is not empty. */
  function OrElse(s: string, fallback: string): (r: string)
    ensures s != [] ==> r == s
    ensures s == [] ==> r == fallback
  {
    if s != [] then s else fallback
  }

  /** A form submission: an error shown on the page, or the request posted. */
  datatype Submission<R> = Refused(message: string) | Post(request: R)

  /**
   * The answer to a `fetch`: a 2xx status with its decoded body, another
   * status with its body as text, or a thrown error with its message.
   */
  datatype Fetched<T> = Ok(body: T) | NotOk(text: string) | Thrown(message: string)

  /** The tab's `sessionStorage`. */
  type SessionStorage = map<string, string>

  /** `sessionStorage.setItem(key, value)`: a null value is stored as the text "null". */
  function SetItem(session: SessionStorage, key: string, value: Option<string>): (r: SessionStorage)
    ensures key in r && r[key] == JsString(value)
    ensures forall k :: k != key ==> (k in r <==> k in session)
    ensures forall k :: k != key && k in session ==> r[k] == session[k]
  {
    session[key := JsString(value)]
  }

  /** `sessionStorage.getItem(key)` answers `value`. */
  predicate Stored(session: SessionStorage, key: string, value: string) {
    key in session && session[key] == value
  }

  const ROOM_PASSWORD_ITEM: string := "roomPassword"
  const ROOM_ID_ITEM: string := "currentRoomId"
  const USERNAME_ITEM: string := "currentUsername"
  const USER_ID_ITEM: string := "currentUserId"

  /** The four session keys the room pages write are distinct. */
  lemma ItemsDistinct()
    ensures ROOM_PASSWORD_ITEM != ROOM_ID_ITEM && ROOM_PASSWORD_ITEM != USERNAME_ITEM
    ensures ROOM_PASSWORD_ITEM != USER_ID_ITEM && ROOM_ID_ITEM != USERNAME_ITEM
    ensures ROOM_ID_ITEM != USER_ID_ITEM && USERNAME_ITEM != USER_ID_ITEM
  {
    assert ROOM_ID_ITEM[7] != USER_ID_ITEM[7];
  }

  /** The characters `encodeURIComponent` leaves as they are. */
  predicate IsUnreserved(c: char) {
    || ('A' <= c <= 'Z') || ('a' <= c <= 'z') || ('0' <= c <= '9')
    || c in "-_.!~*'()"
  }

  const HEX_DIGITS: string := "0123456789ABCDEF"

  predicate IsHexDigit(c: char) {
    ('0' <= c <= '9') || ('A' <= c <= 'F')
  }

  /** The UTF-8 encoding of one scalar value. */
  function Utf8(c: char): (bytes: seq<nat>)
    ensures 1 <= |bytes| <= 4
    ensures forall k :: 0 <= k < |bytes| ==> bytes[k] < 256
    ensures (c as int) < 0x80 ==> bytes == [c as int]
  {
    var cp := c as int;
    if cp < 0x80 then [cp]
    else if cp < 0x800 then [0xC0 + cp / 64, 0x80 + cp % 64]
    else if cp < 0x1_0000 then [0xE0 + cp / 4096, 0x80 + (cp / 64) % 64, 0x80 + cp % 64]
    else [0xF0 + cp / 262144, 0x80 + (cp / 4096) % 64, 0x80 + (cp / 64) % 64, 0x80 + cp % 64]
  }

  /** `%XX` for each byte, in upper-case hexadecimal. */
  function PercentEncode(bytes: seq<nat>): (r: string)
    requires forall k :: 0 <= k < |bytes| ==> bytes[k] < 256
    ensures |r| == 3 * |bytes|
    ensures forall k :: 0 <= k < |r| ==> r[k] == '%' || IsHexDigit(r[k])
  {
    if bytes == [] then []
    else ['%', HEX_DIGITS[bytes[0] / 16], HEX_DIGITS[bytes[0] % 16]] + PercentEncode(bytes[1..])
  }

  /**
   * `encodeURIComponent(s)`: unreserved characters are kept, every other
   * character becomes the percent-escapes of its UTF-8 bytes. The result
   * never holds a character with a meaning in a query string (`&`, `=`,
   * `#`, a space), and a string of unreserved characters is kept as is.
   */
  function EncodeUriComponent(s: string): (r: string)
    ensures forall k :: 0 <= k < |r| ==> IsUnreserved(r[k]) || r[k] == '%' || IsHexDigit(r[k])
    ensures (forall k :: 0 <= k < |s| ==> IsUnreserved(s[k])) ==> r == s
    ensures |s| <= |r|
  {
    if s == [] then []
    else
      var head := if IsUnreserved(s[0]) then [s[0]] else PercentEncode(Utf8(s[0]));
      head + EncodeUriComponent(s[1..])
  }

  /** No escape produced by `EncodeUriComponent` can end a query parameter. */
  lemma EncodedStaysInParameter(s: string)
    ensures var r := EncodeUriComponent(s);
      forall k :: 0 <= k < |r| ==> r[k] != '&' && r[k] != '=' && r[k] != '#' && r[k] != ' '
  {
    var r := EncodeUriComponent(s);
    forall k | 0 <= k < |r| ensures r[k] != '&' && r[k] != '=' && r[k] != '#' && r[k] != ' ' {
      assert IsUnreserved(r[k]) || r[k] == '%' || IsHexDigit(r[k]);
    }
  }

  /** The value of a digit of `HEX_DIGITS`. */
  function HexValue(d: char): (v: nat)
    ensures v < 16
    ensures IsHexDigit(d) ==> HEX_DIGITS[v] == d
  {
    if '0' <= d <= '9' then d as int - '0' as int
    else if 'A' <= d <= 'F' then d as int - 'A' as int + 10
    else 0
  }

  lemma HexValueOfDigit(v: nat)
    requires v < 16
    ensures HexValue(HEX_DIGITS[v]) == v
  {
  }

  /** The length of a UTF-8 sequence, read off its leading byte. */
  function Utf8Length(lead: nat): (n: nat)
    ensures 1 <= n <= 4
    ensures lead < 0x80 <==> n == 1
  {
    if lead < 0x80 then 1 else if lead < 0xE0 then 2 else if lead < 0xF0 then 3 else 4
  }

  /** The scalar value a UTF-8 sequence of one to four bytes encodes. */
  function Utf8Value(bytes: seq<nat>): (cp: int)
    requires 1 <= |bytes| <= 4
    ensures |bytes| == 1 ==> cp == bytes[0]
  {
    if |bytes| == 1 then bytes[0]
    else
      var b := seq(|bytes|, k requires 0 <= k < |bytes| => bytes[k] as int);
      if |b| == 2 then (b[0] - 0xC0) * 64 + (b[1] - 0x80)
      else if |b| == 3 then (b[0] - 0xE0) * 4096 + (b[1] - 0x80) * 64 + (b[2] - 0x80)
      else (b[0] - 0xF0) * 262144 + (b[1] - 0x80) * 4096 + (b[2] - 0x80) * 64 + (b[3] - 0x80)
  }

  /** UTF-8 round trip: the leading byte announces the length, and the bytes give back the character. */
  lemma Utf8RoundTrip(c: char)
    ensures Utf8Length(Utf8(c)[0]) == |Utf8(c)|
    ensures Utf8Value(Utf8(c)) == c as int
  {
    var cp := c as int;
    var q := cp / 64;
    assert cp == 64 * q + cp % 64;
    assert q == 64 * (q / 64) + q % 64;
    assert q / 64 == cp / 4096;
    var q2 := cp / 4096;
    assert q2 == 64 * (q2 / 64) + q2 % 64;
    assert q2 / 64 == cp / 262144;
  }

  /** A Unicode scalar value: a code point that is not a surrogate. */
  predicate IsScalar(cp: int) {
    (0 <= cp < 0xD800) || (0xE000 <= cp < 0x11_0000)
  }

  /** The bytes of the `n` escapes `%XX` at the start of `r`. */
  function PercentBytes(r: string, n: nat): (bytes: seq<nat>)
    requires 3 * n <= |r|
    ensures |bytes| == n
    ensures forall k :: 0 <= k < n ==> bytes[k] < 256
    decreases n
  {
    if n == 0 then [] else [HexValue(r[1]) * 16 + HexValue(r[2])] + PercentBytes(r[3..], n - 1)
  }

  lemma {:induction false} PercentBytesOfEncode(bytes: seq<nat>, rest: string)
    requires forall k :: 0 <= k < |bytes| ==> bytes[k] < 256
    ensures 3 * |bytes| <= |PercentEncode(bytes) + rest|
    ensures PercentBytes(PercentEncode(bytes) + rest, |bytes|) == bytes
    decreases |bytes|
  {
    if bytes != [] {
      var r := PercentEncode(bytes) + rest;
      var b := bytes[0];
      assert r[..3] == ['%', HEX_DIGITS[b / 16], HEX_DIGITS[b % 16]];
      assert r[3..] == PercentEncode(bytes[1..]) + rest;
      HexValueOfDigit(b / 16);
      HexValueOfDigit(b % 16);
      PercentBytesOfEncode(bytes[1..], rest);
    }
  }

  /**
   * `decodeURIComponent(r)` on what `EncodeUriComponent` can produce: a
   * `%XX` run is read as one UTF-8 sequence, any other character is kept.
   * `None` where the escapes do not spell a Unicode scalar value.
   */
  function DecodeUriComponent(r: string): (s: Option<string>)
    ensures s.Some? ==> |s.value| <= |r|
    decreases |r|
  {
    if r == [] then Some([])
    else if r[0] != '%' then
      match DecodeUriComponent(r[1..])
      case Some(t) => Some([r[0]] + t)
      case None => None
    else if |r| < 3 then None
    else
      var n := Utf8Length(HexValue(r[1]) * 16 + HexValue(r[2]));
      if |r| < 3 * n then None
      else
        var cp := Utf8Value(PercentBytes(r, n));
        if !IsScalar(cp) then None
        else
          match DecodeUriComponent(r[3 * n..])
          case Some(t) => Some([cp as char] + t)
          case None => None
  }

  /** An escaped character is decoded back from its escapes, ahead of whatever follows. */
  lemma DecodeEscaped(c: char, rest: string)
    requires !IsUnreserved(c)
    ensures DecodeUriComponent(PercentEncode(Utf8(c)) + rest) ==
      match DecodeUriComponent(rest)
      case Some(t) => Some([c] + t)
      case None => None
  {
    var bytes := Utf8(c);
    var r := PercentEncode(bytes) + rest;
    PercentBytesOfEncode(bytes, rest);
    Utf8RoundTrip(c);
    var b := bytes[0];
    assert r[..3] == ['%', HEX_DIGITS[b / 16], HEX_DIGITS[b % 16]];
    HexValueOfDigit(b / 16);
    HexValueOfDigit(b % 16);
    assert HexValue(r[1]) * 16 + HexValue(r[2]) == b;
    assert r[3 * |bytes|..] == rest;
  }

  /** Decoding undoes `EncodeUriComponent`, so two different strings never encode alike. */
  lemma {:induction false} DecodeEncode(s: string)
    ensures DecodeUriComponent(EncodeUriComponent(s)) == Some(s)
    decreases |s|
  {
    if s != [] {
      var tail := EncodeUriComponent(s[1..]);
      DecodeEncode(s[1..]);
      if IsUnreserved(s[0]) {
        var r := [s[0]] + tail;
        assert EncodeUriComponent(s) == r;
        assert r[1..] == tail;
      } else {
        assert EncodeUriComponent(s) == PercentEncode(Utf8(s[0])) + tail;
        DecodeEscaped(s[0], tail);
      }
      assert s == [s[0]] + s[1..];
    }
  }

  /** `EncodeUriComponent` is injective: a username survives the trip through the address. */
  lemma EncodeInjective(a: string, b: string)
    requires EncodeUriComponent(a) == EncodeUriComponent(b)
    ensures a == b
  {
    DecodeEncode(a);
    DecodeEncode(b);
  }

  const COLLAB_PAGE: string := "collab.html"
  const HOME_PAGE: string := "index.html"

  /** `collab.html?roomId=${roomId}&username=${encodeURIComponent(username)}` */
  function CollabUrl(roomId: string, username: Option<string>): string {
    COLLAB_PAGE + "?roomId=" + roomId + "&username=" + EncodeUriComponent(JsString(username))
  }
}
