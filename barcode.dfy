/**
 * The "WIFI:" network-configuration barcode text for a connection
 * (create_barcode_string.py): `WIFI:T:<type>;S:<ssid>;P:<passphrase>;;`, where a
 * WEP connection's passphrase is turned into a 128-bit key by repeating it to
 * 64 bytes, hashing those with MD5 and keeping the first 13 digest bytes as hex.
 */
module Barcode {
  import opened Common
  import opened OrderedDict
  import opened Settings
  import opened Connections
  import opened HexText

  /** An MD5 digest: 16 bytes. */
  type Digest = d: seq<byte> | |d| == 16 witness seq(16, i => 0)

  /** The MD5 function, whose internals are not part of this model. */
  type Md5 = seq<byte> -> Digest

  /** Size of the buffer the WEP passphrase is repeated into. */
  const BufferSize := 64

  /** Bytes of a 128-bit WEP key (WEPSTRONGKEYSIZE), and the hex characters kept. */
  const WepKeyBytes := 13
  const WepKeyHexLength := 26

  /**
   * How create_string can fail: ModuloByZero, ByteOutOfRange and SsidMissing are
   * exceptions it raises and nothing catches. KeyNotText is not an exception of the
   * program: it marks a key the model does not follow.
   */
  datatype Error =
    | ModuloByZero    // an empty WEP passphrase: `i % l` with l == 0
    | ByteOutOfRange  // a character that does not fit in a bytearray element
    | KeyNotText      // a key that is a D-Bus array or dictionary, not text: not followed
    | SsidMissing     // no wireless setting, or no textual SSID in it

  /** `str(quotedphrase(s))`: the text between one pair of double quotes. */
  function Quoted(s: string): (r: string)
    ensures |r| == |s| + 2
    ensures r[0] == '"' && r[|r| - 1] == '"'
    ensures r[1..|r| - 1] == s
  {
    "\"" + s + "\""
  }

  // ---------------------------------------------------------------------------
  // WEP passphrase to key

  /**
   * The 64-byte buffer holding the passphrase repeated: byte i is the code of
   * character i mod l. Fails like the loop: on an empty passphrase, and on a
   * character of the buffer whose code does not fit in a byte.
   */
  function WepBuffer(password: string): (r: Result<seq<byte>, Error>)
    ensures r == Err(ModuloByZero) <==> |password| == 0
    ensures r == Err(ByteOutOfRange) <==>
      |password| > 0 && exists i :: 0 <= i < BufferSize && password[i % |password|] as int >= 256
    ensures r.Ok? <==>
      |password| > 0 && forall i :: 0 <= i < BufferSize ==> password[i % |password|] as int < 256
    ensures r.Ok? ==> |r.value| == BufferSize
    ensures r.Ok? ==> forall i :: 0 <= i < BufferSize ==> r.value[i] == password[i % |password|] as int
  {
    var l := |password|;
    if l == 0 then Err(ModuloByZero)
    else if exists i :: 0 <= i < BufferSize && password[i % l] as int >= 256 then Err(ByteOutOfRange)
    else Ok(seq(BufferSize, i requires 0 <= i < BufferSize => password[i % l] as int))
  }

  /** The key text: the first 26 characters of the digest's hex text. */
  function WepKey(buffer: seq<byte>, md5: Md5): string {
    Hex(md5(buffer))[..WepKeyHexLength]
  }

  /** The passphrase derived from a WEP key, or why its derivation fails. */
  function WepPassphrase(password: string, md5: Md5): Result<string, Error> {
    match WepBuffer(password)
    case Err(e) => Err(e)
    case Ok(buffer) => Ok(WepKey(buffer, md5))
  }

  // ---------------------------------------------------------------------------
  // The barcode text

  /** `"%s" % passphrase`: an absent key prints as `None`. */
  function KeyText(key: Option<Value>): Result<string, Error> {
    match key
    case None => Ok("None")
    case Some(Scalar(t)) => Ok(t)
    case Some(_) => Err(KeyNotText)
  }

  /** The passphrase object before it is formatted: the key, or the derived WEP key. */
  function Passphrase(c: Connection, md5: Md5): Result<Option<Value>, Error> {
    if c.SecType() == "WEP" then
      match c.GetKey()
      case Some(Scalar(password)) =>
        (match WepPassphrase(password, md5)
         case Err(e) => Err(e)
         case Ok(key) => Ok(Some(Scalar(key))))
      case _ => Err(KeyNotText)
    else
      Ok(c.GetKey())
  }

  /** The barcode text for the given fields. */
  function Payload(secType: string, ssid: string, passphrase: string): string {
    "WIFI:" + ("T:" + secType + ";") + ("S:" + ssid + ";") + ("P:" + passphrase + ";") + ";"
  }

  /** What create_string returns for a connection, the error it raises, or KeyNotText for a key not followed. */
  function BarcodeText(c: Connection, md5: Md5): Result<string, Error> {
    match Passphrase(c, md5)
    case Err(e) => Err(e)
    case Ok(p) =>
      match c.GetSsid()
      case None => Err(SsidMissing)
      case Some(ssid) =>
        match KeyText(p)
        case Err(e) => Err(e)
        case Ok(text) => Ok(Payload(c.SecType(), ssid, text))
  }

  /**
   * create_string(connection): fills the 64-byte buffer in place for a WEP
   * connection, then appends the barcode's fields one after the other.
   */
  method CreateString(c: Connection, md5: Md5) returns (r: Result<string, Error>)
    ensures r == BarcodeText(c, md5)
  {
    var passphrase := c.GetKey();
    if c.SecType() == "WEP" {
      var key := c.GetKey();
      if !(key.Some? && key.value.Scalar?) {
        return Err(KeyNotText);
      }
      var password := key.value.text;
      passphrase := Some(Scalar(Quoted(password)));  // replaced below
      var l := |password|;
      var ba := new byte[BufferSize];
      for i := 0 to BufferSize
        invariant i > 0 ==> l > 0
        invariant forall j :: 0 <= j < i ==> ba[j] == password[j % l] as int
      {
        if l == 0 {
          return Err(ModuloByZero);
        }
        var code := password[i % l] as int;
        if code >= 256 {
          return Err(ByteOutOfRange);
        }
        ba[i] := code;
      }
      assert l > 0;
      assert ba[..] == WepBuffer(password).value;
      var digest := md5(ba[..]);
      passphrase := Some(Scalar(Hex(digest)[..WepKeyHexLength]));
    }
    var s := "WIFI:";
    s := s + ("T:" + c.SecType() + ";");
    var ssid := c.GetSsid();
    if ssid.None? {
      return Err(SsidMissing);
    }
    s := s + ("S:" + ssid.value + ";");
    var text := KeyText(passphrase);
    if text.Err? {
      return Err(text.error);
    }
    s := s + ("P:" + text.value + ";");
    s := s + ";";
    return Ok(s);
  }

  // ---------------------------------------------------------------------------
  // Properties of the WEP key derivation

  /**
   * The buffer is the passphrase's first characters followed by repetitions of
   * them: it starts with the passphrase (or its first 64 characters) and repeats
   * with period l.
   */
  lemma WepBufferRepeats(password: string)
    requires WepBuffer(password).Ok?
    ensures var ba, l := WepBuffer(password).value, |password|;
      && |ba| == BufferSize
      && (forall i :: 0 <= i < l && i < BufferSize ==> ba[i] == password[i] as int)
      && (forall i :: 0 <= i && i + l < BufferSize ==> ba[i + l] == ba[i])
  {
    var ba, l := WepBuffer(password).value, |password|;
    assert forall i :: 0 <= i < BufferSize ==> ba[i] == password[i % l] as int;
    WepBufferStarts(password, ba);
    WepBufferPeriod(password, ba);
  }

  lemma WepBufferStarts(password: string, ba: seq<byte>)
    requires |password| > 0 && |ba| == BufferSize
    requires forall i :: 0 <= i < BufferSize ==> ba[i] == password[i % |password|] as int
    ensures forall i :: 0 <= i < |password| && i < BufferSize ==> ba[i] == password[i] as int
  {
    forall i | 0 <= i < |password| && i < BufferSize ensures ba[i] == password[i] as int {
      assert i % |password| == i;
    }
  }

  lemma WepBufferPeriod(password: string, ba: seq<byte>)
    requires |password| > 0 && |ba| == BufferSize
    requires forall i :: 0 <= i < BufferSize ==> ba[i] == password[i % |password|] as int
    ensures forall i :: 0 <= i && i + |password| < BufferSize ==> ba[i + |password|] == ba[i]
  {
    var l := |password|;
    forall i | 0 <= i && i + l < BufferSize ensures ba[i + l] == ba[i] {
      ModAddPeriod(i, l);
    }
  }

  /**
   * The derived key is 26 lower-case hex characters: the text of the first 13
   * bytes of the buffer's digest, which it reads back as.
   */
  lemma WepKeyShape(password: string, md5: Md5)
    requires WepBuffer(password).Ok?
    ensures var key, digest := WepPassphrase(password, md5).value, md5(WepBuffer(password).value);
      && |key| == WepKeyHexLength
      && IsHex(key)
      && key == Hex(digest[..WepKeyBytes])
      && UnHex(key) == digest[..WepKeyBytes]
  {
    var digest := md5(WepBuffer(password).value);
    HexPrefix(digest, WepKeyBytes);
    HexRoundTrip(digest[..WepKeyBytes]);
  }

  /** Repeating a passphrase twice derives the same key (or fails the same way). */
  lemma WepDoubledPassword(password: string, md5: Md5)
    ensures WepPassphrase(password + password, md5) == WepPassphrase(password, md5)
  {
    var l, pp := |password|, password + password;
    if l > 0 {
      forall i | 0 <= i < BufferSize ensures pp[i % |pp|] == password[i % l] {
        assert |pp| == 2 * l;
        var k := i % (2 * l);
        ModDouble(i, l);
        if k < l {
          ModUnique(k, l, 0, k);
          assert pp[k] == password[k];
        } else {
          ModUnique(k, l, 1, k - l);
          assert pp[k] == password[k - l];
        }
      }
      SameBuffer(pp, password);
    }
  }

  /** Only a passphrase's first 64 characters matter: the rest is never read. */
  lemma WepLongPassword(password: string, md5: Md5)
    requires |password| >= BufferSize
    ensures WepPassphrase(password, md5) == WepPassphrase(password[..BufferSize], md5)
  {
    var p64 := password[..BufferSize];
    forall i | 0 <= i < BufferSize ensures password[i % |password|] == p64[i % |p64|] {
      assert i % |password| == i && i % |p64| == i;
    }
    SameBuffer(password, p64);
  }

  /** Two passphrases whose characters agree wherever the buffer reads them give the same buffer. */
  lemma SameBuffer(p1: string, p2: string)
    requires |p1| > 0 && |p2| > 0
    requires forall i :: 0 <= i < BufferSize ==> p1[i % |p1|] == p2[i % |p2|]
    ensures WepBuffer(p1) == WepBuffer(p2)
  {
    var l1, l2 := |p1|, |p2|;
    var bad1 := exists i :: 0 <= i < BufferSize && p1[i % l1] as int >= 256;
    if bad1 {
      var i :| 0 <= i < BufferSize && p1[i % l1] as int >= 256;
      assert p2[i % l2] as int >= 256;
    } else {
      var s1 := seq(BufferSize, i requires 0 <= i < BufferSize => p1[i % l1] as int);
      var s2 := seq(BufferSize, i requires 0 <= i < BufferSize => p2[i % l2] as int);
      assert s1 == s2;
    }
  }

  // Euclidean division facts used above.

  lemma MulAtLeast(a: int, l: int)
    requires a >= 1 && l > 0
    ensures a * l >= l
  {
    if a > 1 {
      MulAtLeast(a - 1, l);
      assert a * l == (a - 1) * l + l;
    }
  }

  lemma ModUnique(x: int, l: int, q: int, r: int)
    requires l > 0 && 0 <= r < l && x == q * l + r
    ensures x % l == r
  {
    var q0, r0 := x / l, x % l;
    assert x == q0 * l + r0;
    assert (q - q0) * l == r0 - r by {
      assert q * l - q0 * l == (q - q0) * l;
    }
    if q - q0 >= 1 {
      MulAtLeast(q - q0, l);
    } else if q0 - q >= 1 {
      MulAtLeast(q0 - q, l);
    }
  }

  lemma ModAddPeriod(x: nat, l: nat)
    requires l > 0
    ensures (x + l) % l == x % l
  {
    var q := x / l;
    assert x == q * l + x % l;
    assert x + l == (q + 1) * l + x % l;
    ModUnique(x + l, l, q + 1, x % l);
  }

  lemma ModDouble(i: nat, l: nat)
    requires l > 0
    ensures (i % (2 * l)) % l == i % l
  {
    var k := i % (2 * l);
    var q := i / (2 * l);
    assert i == q * (2 * l) + k;
    if k < l {
      assert i == (2 * q) * l + k;
      ModUnique(i, l, 2 * q, k);
    } else {
      assert i == (2 * q + 1) * l + (k - l);
      ModUnique(i, l, 2 * q + 1, k - l);
      ModUnique(k, l, 1, k - l);
    }
  }

  // ---------------------------------------------------------------------------
  // Properties of the barcode text

  /** The text of the fields up to the first ';', and what follows that ';'. */
  function Field(s: string): (r: Option<(string, string)>)
    ensures r.Some? ==> s == r.value.0 + ";" + r.value.1 && ';' !in r.value.0
  {
    if s == [] then None
    else if s[0] == ';' then Some(([], s[1..]))
    else
      match Field(s[1..])
      case None => None
      case Some((f, rest)) => Some(([s[0]] + f, rest))
  }

  /** Reads a barcode text back into its type, SSID and passphrase fields. */
  function ParsePayload(s: string): Option<(string, string, string)> {
    if |s| < 7 || s[..7] != "WIFI:T:" then None
    else
      match Field(s[7..])
      case None => None
      case Some((t, r1)) =>
        match ParseSsid(r1)
        case None => None
        case Some((ssid, p)) => Some((t, ssid, p))
  }

  /** Reads "S:<ssid>;" and the passphrase field after it. */
  function ParseSsid(s: string): Option<(string, string)> {
    if |s| < 2 || s[..2] != "S:" then None
    else
      match Field(s[2..])
      case None => None
      case Some((ssid, r2)) =>
        match ParsePassphrase(r2)
        case None => None
        case Some(p) => Some((ssid, p))
  }

  /** Reads "P:<passphrase>;" followed by the closing ";". */
  function ParsePassphrase(s: string): Option<string> {
    if |s| < 2 || s[..2] != "P:" then None
    else
      match Field(s[2..])
      case None => None
      case Some((p, r3)) => if r3 == ";" then Some(p) else None
  }

  lemma {:induction false} FieldOf(f: string, rest: string)
    requires ';' !in f
    ensures Field(f + ";" + rest) == Some((f, rest))
  {
    if f != [] {
      assert (f + ";" + rest)[1..] == f[1..] + ";" + rest;
      FieldOf(f[1..], rest);
      assert [f[0]] + f[1..] == f;
    } else {
      assert f + ";" + rest == [';'] + rest;
    }
  }

  /**
   * Every barcode text, whatever its fields hold, starts with "WIFI:T:" followed
   * by the type field, and ends with ";;".
   */
  lemma PayloadShape(secType: string, ssid: string, passphrase: string)
    ensures var s := Payload(secType, ssid, passphrase);
      && s[..7] == "WIFI:T:" && s[7..7 + |secType| + 1] == secType + ";"
      && s[|s| - 2..] == ";;"
  {
    var head, tail := "WIFI:T:" + (secType + ";"), "S:" + ssid + ";" + "P:" + passphrase + ";" + ";";
    var s := Payload(secType, ssid, passphrase);
    assert s == head + tail;
    assert s[..|head|] == head;
    assert tail[|tail| - 2..] == ";;";
  }

  /** Every text create_string returns has the shape of a barcode text. */
  lemma BarcodeShape(c: Connection, md5: Md5)
    ensures BarcodeText(c, md5).Ok? ==> var s := BarcodeText(c, md5).value;
      && s[..7] == "WIFI:T:" && s[|s| - 2..] == ";;"
  {
    match Passphrase(c, md5)
    case Err(_) =>
    case Ok(p) =>
      match c.GetSsid()
      case None =>
      case Some(ssid) =>
        match KeyText(p)
        case Err(_) =>
        case Ok(text) => PayloadShape(c.SecType(), ssid, text);
  }

  /**
   * When no field holds a ';', the barcode text reads back as exactly the fields
   * it was built from.
   */
  lemma PayloadRoundTrip(secType: string, ssid: string, passphrase: string)
    requires ';' !in secType && ';' !in ssid && ';' !in passphrase
    ensures ParsePayload(Payload(secType, ssid, passphrase)) == Some((secType, ssid, passphrase))
  {
    var r2 := "P:" + passphrase + ";" + ";";
    var r1 := "S:" + ssid + ";" + r2;
    PassphraseRoundTrip(passphrase);
    SsidRoundTrip(ssid, r2);
    var s := Payload(secType, ssid, passphrase);
    assert s == "WIFI:T:" + (secType + ";" + r1);
    assert s[7..] == secType + ";" + r1;
    FieldOf(secType, r1);
  }

  /** Conversely, a ';' in any field keeps the text from reading back as its fields. */
  lemma PayloadNoRoundTrip(secType: string, ssid: string, passphrase: string)
    requires ';' in secType || ';' in ssid || ';' in passphrase
    ensures ParsePayload(Payload(secType, ssid, passphrase)) != Some((secType, ssid, passphrase))
  {
  }

  lemma PassphraseRoundTrip(passphrase: string)
    requires ';' !in passphrase
    ensures ParsePassphrase("P:" + passphrase + ";" + ";") == Some(passphrase)
  {
    var r2 := "P:" + passphrase + ";" + ";";
    assert r2[2..] == passphrase + ";" + ";";
    FieldOf(passphrase, ";");
  }

  lemma SsidRoundTrip(ssid: string, r2: string)
    requires ';' !in ssid
    ensures ParseSsid("S:" + ssid + ";" + r2) == match ParsePassphrase(r2)
      case None => None
      case Some(p) => Some((ssid, p))
  {
    var r1 := "S:" + ssid + ";" + r2;
    assert r1[2..] == ssid + ";" + r2;
    FieldOf(ssid, r2);
  }

  /**
   * Fields are inserted without escaping, so a ';' in the SSID can make two
   * different connections share one barcode text.
   */
  lemma PayloadAmbiguous()
    ensures Payload("WPA", "x;P:y", "z") == Payload("WPA", "x", "y;P:z")
  {
  }

  /** A WPA connection: the type field is "WPA" and the passphrase is the pre-shared key, verbatim. */
  lemma BarcodeWpa(c: Connection, md5: Md5, ssid: string, psk: string)
    requires !HasKey(c.security, WepKey0)
    requires Get(c.security, Psk) == Some(Scalar(psk))
    requires c.GetSsid() == Some(ssid)
    ensures BarcodeText(c, md5) == Ok(Payload("WPA", ssid, psk))
  {
  }

  /** A connection with neither a WEP key nor a pre-shared key prints the passphrase `None`. */
  lemma BarcodeNoKey(c: Connection, md5: Md5, ssid: string)
    requires !HasKey(c.security, WepKey0) && !HasKey(c.security, Psk)
    requires c.GetSsid() == Some(ssid)
    ensures BarcodeText(c, md5) == Ok(Payload("WPA", ssid, "None"))
  {
  }

  /**
   * A WEP connection: the type field is "WEP" and the passphrase is the hex text
   * of the first 13 bytes of the digest of the repeated WEP key; it depends on
   * nothing but that key.
   */
  lemma BarcodeWep(c: Connection, md5: Md5, ssid: string, password: string)
    requires Get(c.security, WepKey0) == Some(Scalar(password))
    requires WepBuffer(password).Ok?
    requires c.GetSsid() == Some(ssid)
    ensures BarcodeText(c, md5) ==
            Ok(Payload("WEP", ssid, Hex(md5(WepBuffer(password).value)[..WepKeyBytes])))
  {
    WepKeyShape(password, md5);
  }

  /** An empty WEP key fails with a modulo by zero, before the SSID is read. */
  lemma BarcodeWepEmpty(c: Connection, md5: Md5)
    requires Get(c.security, WepKey0) == Some(Scalar(""))
    ensures BarcodeText(c, md5) == Err(ModuloByZero)
  {
  }

  /**
   * A WEP key with a character whose code does not fit in a byte, among those the
   * 64-byte buffer reads, fails with ByteOutOfRange whatever the SSID.
   */
  lemma BarcodeByteOutOfRange(c: Connection, md5: Md5, password: string, i: nat)
    requires Get(c.security, WepKey0) == Some(Scalar(password))
    requires |password| > 0 && i < BufferSize && password[i % |password|] as int >= 256
    ensures BarcodeText(c, md5) == Err(ByteOutOfRange)
  {
    assert WepBuffer(password) == Err(ByteOutOfRange);
  }

  /** A connection without a textual SSID fails once its passphrase is settled. */
  lemma BarcodeSsidMissing(c: Connection, md5: Md5)
    requires Passphrase(c, md5).Ok?
    requires c.GetSsid().None?
    ensures BarcodeText(c, md5) == Err(SsidMissing)
  {
  }
}

