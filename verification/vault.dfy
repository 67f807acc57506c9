// Encryption of stored board passwords: AES-256-GCM under a configured key,
// stored as `hex(iv):hex(tag):hex(ciphertext)`. The cipher itself is a pair of
// functions handed in; the model fixes the text format around it and the
// errors of a missing key, a malformed text and a failed authentication.

module Vault {
  import opened Wrappers
  import opened Strings

  type Byte = b: int | 0 <= b < 256

  /** Lengths in bytes of the random IV and of the AES-256 key. */
  const IV_LENGTH: nat := 16
  const KEY_LENGTH: nat := 32

  /** The output of sealing: the authentication tag and the ciphertext. */
  datatype Sealed = Sealed(tag: seq<Byte>, ct: seq<Byte>)

  /** The cipher: sealing with (key, iv) and opening, which answers None when authentication fails. */
  type Seal = (seq<Byte>, seq<Byte>, string) -> Sealed
  type Open = (seq<Byte>, seq<Byte>, seq<Byte>, seq<Byte>) -> Option<string>

  /** Opening what was sealed under the same key and IV gives the plaintext back. */
  ghost predicate AeadCorrect(seal: Seal, open: Open) {
    forall key, iv, p | |key| == KEY_LENGTH ::
      open(key, iv, seal(key, iv, p).tag, seal(key, iv, p).ct) == Some(p)
  }

  /** Opening succeeds only on what sealing produced. */
  ghost predicate AeadAuthentic(seal: Seal, open: Open) {
    forall key, iv, tag, ct | |key| == KEY_LENGTH && open(key, iv, tag, ct).Some? ::
      seal(key, iv, open(key, iv, tag, ct).value) == Sealed(tag, ct)
  }

  // ---------------------------------------------------------------- hex

  const HEX_DIGITS: string := "0123456789abcdef"

  /** Two lower-case hex digits per byte. */
  function ToHex(bs: seq<Byte>): (r: string)
    ensures |r| == 2 * |bs|
    ensures forall i | 0 <= i < |r| :: r[i] in HEX_DIGITS
  {
    if |bs| == 0 then []
    else [HEX_DIGITS[bs[0] / 16], HEX_DIGITS[bs[0] % 16]] + ToHex(bs[1..])
  }

  /** The value of a hex digit of either case. */
  function HexValue(c: char): (r: Option<nat>)
    ensures r.Some? ==> r.value < 16
    ensures c in HEX_DIGITS ==> r.Some? && HEX_DIGITS[r.value] == c
  {
    if '0' <= c <= '9' then Some(c as int - '0' as int)
    else if 'a' <= c <= 'f' then Some(c as int - 'a' as int + 10)
    else if 'A' <= c <= 'F' then Some(c as int - 'A' as int + 10)
    else None
  }

  /**
   * `Buffer.from(s, 'hex')`: whole pairs of hex digits become bytes; decoding
   * stops quietly at the first pair that is not hex, and an odd last digit is dropped.
   */
  function FromHex(s: string): (r: seq<Byte>)
    ensures |r| <= |s| / 2
  {
    if |s| < 2 then []
    else match (HexValue(s[0]), HexValue(s[1]))
      case (Some(hi), Some(lo)) => [ByteOf(hi, lo)] + FromHex(s[2..])
      case _ => []
  }

  /** The byte with high digit `hi` and low digit `lo`. */
  function ByteOf(hi: nat, lo: nat): Byte
    requires hi < 16 && lo < 16
  {
    hi * 16 + lo
  }

  /** Hex round trip. */
  lemma {:induction false} FromHexToHex(bs: seq<Byte>)
    ensures FromHex(ToHex(bs)) == bs
  {
    if |bs| > 0 {
      FromHexToHex(bs[1..]);
      var s := ToHex(bs);
      var hi, lo := bs[0] / 16, bs[0] % 16;
      HexDigitValue(hi);
      HexDigitValue(lo);
      assert s[0] == HEX_DIGITS[hi] && s[1] == HEX_DIGITS[lo];
      assert s[2..] == ToHex(bs[1..]);
      assert HexValue(s[0]) == Some(hi) && HexValue(s[1]) == Some(lo);
      ByteDigits(bs[0]);
      assert FromHex(s) == [bs[0]] + FromHex(s[2..]);
    }
  }

  /** A byte is rebuilt from its high and low digits. */
  lemma ByteDigits(b: Byte)
    ensures ByteOf(b / 16, b % 16) == b
  {
  }

  /** Reading back a digit. */
  lemma HexDigitValue(n: nat)
    requires n < 16
    ensures HexValue(HEX_DIGITS[n]) == Some(n)
  {
  }

  /** Decoding is lenient: text that is not hex at all decodes to no bytes rather than failing. */
  lemma FromHexLenient()
    ensures FromHex("zz") == [] && FromHex("0") == [] && FromHex("0aZ") == [10]
  {
    assert "0aZ"[2..] == "Z";
  }

  lemma NoColonInHex(bs: seq<Byte>)
    ensures ':' !in ToHex(bs)
  {
  }

  // ---------------------------------------------------------------- the credential format

  /** `getEncryptionKey`: an absent or empty setting is an error; otherwise its hex bytes, which AES-256 needs to be 32. */
  function EncryptionKey(setting: Option<string>): (r: Result<seq<Byte>>)
    ensures setting.None? || setting == Some("") <==> r == Err(KeyMissing)
    ensures r.Ok? ==> |r.value| == KEY_LENGTH && r.value == FromHex(setting.value)
  {
    if setting.None? || setting.value == "" then Err(KeyMissing)
    else if |FromHex(setting.value)| != KEY_LENGTH then Err(BadKey)
    else Ok(FromHex(setting.value))
  }

  /** `encrypt`: seal under a fresh IV and join the three parts in hex. */
  function Encrypt(setting: Option<string>, seal: Seal, iv: seq<Byte>, plaintext: string): (r: Result<string>)
    requires |iv| == IV_LENGTH
    ensures r.Err? <==> EncryptionKey(setting).Err?
    ensures r.Ok? ==> |Split(r.value, ':')| == 3
    ensures r.Ok? ==>
      var sealed := seal(EncryptionKey(setting).value, iv, plaintext);
      Split(r.value, ':') == [ToHex(iv), ToHex(sealed.tag), ToHex(sealed.ct)]
  {
    match EncryptionKey(setting)
    case Err(e) => Err(e)
    case Ok(key) =>
      var sealed := seal(key, iv, plaintext);
      NoColonInHex(iv);
      NoColonInHex(sealed.tag);
      NoColonInHex(sealed.ct);
      SplitJoin3(ToHex(iv), ToHex(sealed.tag), ToHex(sealed.ct), ':');
      Ok(ToHex(iv) + ":" + ToHex(sealed.tag) + ":" + ToHex(sealed.ct))
  }

  /**
   * `decrypt`: split on ':' and open the first three parts. A text with fewer
   * than three parts leaves a part undefined and fails; parts after the third
   * are ignored; a failed authentication fails.
   */
  function Decrypt(setting: Option<string>, open: Open, text: string): (r: Result<string>)
    ensures EncryptionKey(setting).Err? ==> r.Err? && r.error == EncryptionKey(setting).error
    ensures EncryptionKey(setting).Ok? && |Split(text, ':')| < 3 ==> r == Err(TamperedCredential)
  {
    match EncryptionKey(setting)
    case Err(e) => Err(e)
    case Ok(key) =>
      var parts := Split(text, ':');
      if |parts| < 3 then Err(TamperedCredential)
      else match open(key, FromHex(parts[0]), FromHex(parts[1]), FromHex(parts[2]))
        case None => Err(TamperedCredential)
        case Some(p) => Ok(p)
  }

  /** Round trip: decrypting what was encrypted under the same key gives the password back. */
  lemma DecryptEncrypt(setting: Option<string>, seal: Seal, open: Open, iv: seq<Byte>, plaintext: string)
    requires AeadCorrect(seal, open)
    requires |iv| == IV_LENGTH
    requires Encrypt(setting, seal, iv, plaintext).Ok?
    ensures Decrypt(setting, open, Encrypt(setting, seal, iv, plaintext).value) == Ok(plaintext)
  {
    var key := EncryptionKey(setting).value;
    var sealed := seal(key, iv, plaintext);
    NoColonInHex(iv);
    NoColonInHex(sealed.tag);
    NoColonInHex(sealed.ct);
    SplitJoin3(ToHex(iv), ToHex(sealed.tag), ToHex(sealed.ct), ':');
    FromHexToHex(iv);
    FromHexToHex(sealed.tag);
    FromHexToHex(sealed.ct);
  }

  /**
   * Integrity: under an authentic cipher, a text decrypts to `p` only if its
   * first three parts decode to an IV, tag and ciphertext that sealing `p`
   * under the configured key actually produces.
   */
  lemma DecryptAuthentic(setting: Option<string>, seal: Seal, open: Open, text: string, p: string)
    requires AeadAuthentic(seal, open)
    requires Decrypt(setting, open, text) == Ok(p)
    ensures |Split(text, ':')| >= 3
    ensures
      var parts := Split(text, ':');
      seal(EncryptionKey(setting).value, FromHex(parts[0]), p) == Sealed(FromHex(parts[1]), FromHex(parts[2]))
  {
  }
}
