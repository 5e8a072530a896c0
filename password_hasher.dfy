/** PasswordHasher: the stored credential "iterations.saltBase64.hashBase64",
    written by Hash and read back by Verify. */
module PasswordHasher {
  import opened Common
  import Base64
  import opened Text

  const Separator: char := '.'
  const DefaultIterations: Int32 := 10000
  /** Bytes of random salt Hash draws. */
  const SaltLength: nat := 16
  /** Bytes of derived key Hash stores and Verify compares. */
  const KeyLength: nat := 32
  /** The shortest salt Rfc2898DeriveBytes accepts on .NET Framework. */
  const MinSaltLength: nat := 8

  type Salt = s: seq<Byte> | |s| == SaltLength witness seq(16, _ => 0)
  type Key = k: seq<Byte> | |k| == KeyLength witness seq(32, _ => 0)

  /** PBKDF2 (section 5.2 of RFC 8018) as Rfc2898DeriveBytes(password, salt,
      iterations).GetBytes(32) computes it: any total, deterministic function
      from password, salt and iteration count to a 32-byte key. */
  type Kdf = (string, seq<Byte>, int) -> Key

  /** The three fields of a well-formed stored credential. */
  datatype Credential = Credential(iterations: Int32, salt: seq<Byte>, key: seq<Byte>)

  /** The stored text for an iteration count, salt and key. */
  function Format(iterations: Int32, salt: seq<Byte>, key: seq<Byte>): string {
    Int32ToString(iterations) + [Separator] + Base64.Encode(salt) + [Separator] + Base64.Encode(key)
  }

  /** The argument checks of the Rfc2898DeriveBytes constructor on .NET
      Framework, in its order: the salt, then the iteration count. */
  function DeriveCheck(salt: seq<Byte>, iterations: int): Option<Exception> {
    if |salt| < MinSaltLength then Some(ArgumentException)
    else if iterations <= 0 then Some(ArgumentOutOfRangeException)
    else None
  }

  /** Verify as written: false for a null or empty stored text, a null
      password, a field count other than three or a first field that is not
      an Int32; a FormatException for a field that is not base 64; whatever
      Rfc2898DeriveBytes throws for a short salt or a non-positive count;
      otherwise whether the re-derived key equals the stored bytes. */
  function Verify(kdf: Kdf, password: Option<string>, stored: Option<string>): Outcome<bool> {
    if stored.None? || |stored.value| == 0 || password.None? then Returned(false)
    else
      var parts := Split(stored.value, Separator);
      if |parts| != 3 then Returned(false)
      else
        match TryParseInt32(parts[0])
        case None => Returned(false)
        case Some(iterations) =>
          match Base64.Decode(parts[1])
          case None => Threw(FormatException)
          case Some(salt) =>
            match Base64.Decode(parts[2])
            case None => Threw(FormatException)
            case Some(storedHash) =>
              match DeriveCheck(salt, iterations)
              case Some(e) => Threw(e)
              case None => Returned(kdf(password.value, salt, iterations) == storedHash)
  }

  /** The fields of a stored text that Verify can check a password against:
      three fields, an Int32 count accepted by the key derivation, and two
      base-64 fields with a salt of acceptable length. */
  function ParseCredential(stored: string): Option<Credential> {
    var parts := Split(stored, Separator);
    if |parts| != 3 then None
    else
      match (TryParseInt32(parts[0]), Base64.Decode(parts[1]), Base64.Decode(parts[2]))
      case (Some(n), Some(salt), Some(key)) =>
        if DeriveCheck(salt, n).None? then Some(Credential(n, salt, key)) else None
      case _ => None
  }

  /** Verify as its callers evidently expect it: every malformed stored text
      is a non-match, and nothing is thrown. */
  function VerifyTotal(kdf: Kdf, password: Option<string>, stored: Option<string>): bool {
    password.Some? && stored.Some? &&
    match ParseCredential(stored.value)
    case None => false
    case Some(c) => kdf(password.value, c.salt, c.iterations) == c.key
  }

  /** Hash: a null password is an ArgumentNullException, a non-positive
      count the ArgumentOutOfRangeException of Rfc2898DeriveBytes; otherwise
      the stored text of the count, the random salt and the derived key,
      which splits into three fields of 24 and 44 base-64 characters after
      the count, parses back to the same fields and verifies the password. */
  method Hash(kdf: Kdf, password: Option<string>, iterations: Int32, randomSalt: Salt)
    returns (r: Outcome<string>)
    ensures password.None? ==> r == Threw(ArgumentNullException)
    ensures password.Some? && iterations <= 0 ==> r == Threw(ArgumentOutOfRangeException)
    ensures password.Some? && iterations > 0 ==> r.Returned?
    ensures r.Returned? ==>
      var key := kdf(password.value, randomSalt, iterations);
      var parts := Split(r.value, Separator);
      && parts == [Int32ToString(iterations), Base64.Encode(randomSalt), Base64.Encode(key)]
      && |parts[1]| == 24 && |parts[2]| == 44
      && Base64.IsBase64Text(parts[1]) && Base64.IsBase64Text(parts[2])
      && ParseCredential(r.value) == Some(Credential(iterations, randomSalt, key))
    ensures r.Returned? ==> Verify(kdf, password, Some(r.value)) == Returned(true)
    ensures r.Returned? ==> VerifyTotal(kdf, password, Some(r.value))
  {
    if password.None? {
      return Threw(ArgumentNullException);
    }
    var check := DeriveCheck(randomSalt, iterations);
    if check.Some? {
      return Threw(check.value);
    }
    var key := kdf(password.value, randomSalt, iterations);
    r := Returned(Format(iterations, randomSalt, key));
    HashedText(kdf, password.value, iterations, randomSalt);
  }

  /** What Hash promises of the text it returns. */
  lemma HashedText(kdf: Kdf, password: string, iterations: Int32, salt: Salt)
    requires iterations > 0
    ensures
      var key := kdf(password, salt, iterations);
      var stored := Format(iterations, salt, key);
      var parts := Split(stored, Separator);
      && parts == [Int32ToString(iterations), Base64.Encode(salt), Base64.Encode(key)]
      && |parts[1]| == 24 && |parts[2]| == 44
      && Base64.IsBase64Text(parts[1]) && Base64.IsBase64Text(parts[2])
      && ParseCredential(stored) == Some(Credential(iterations, salt, key))
      && Verify(kdf, Some(password), Some(stored)) == Returned(true)
      && VerifyTotal(kdf, Some(password), Some(stored))
  {
    var key := kdf(password, salt, iterations);
    var stored := Format(iterations, salt, key);
    FormatFields(iterations, salt, key);
    EncodedLengths(salt, key);
    Base64.EncodeIsBase64Text(salt);
    Base64.EncodeIsBase64Text(key);
    FormatParse(iterations, salt, key);
    VerifyMatchesIff(kdf, Some(password), Some(stored));
  }

  /** A salt takes 24 characters and a key 44. */
  lemma EncodedLengths(salt: Salt, key: Key)
    ensures |Base64.Encode(salt)| == 24 && |Base64.Encode(key)| == 44
  {
    Base64.EncodeLength(salt);
    Base64.EncodeLength(key);
    assert |salt| == 16 && |key| == 32;
  }

  /** The stored text splits into the count and the two encodings. */
  lemma FormatFields(iterations: Int32, salt: seq<Byte>, key: seq<Byte>)
    ensures Split(Format(iterations, salt, key), Separator)
         == [Int32ToString(iterations), Base64.Encode(salt), Base64.Encode(key)]
  {
    var fields := [Int32ToString(iterations), Base64.Encode(salt), Base64.Encode(key)];
    Int32ToStringChars(iterations);
    Base64.EncodeIsBase64Text(salt);
    Base64.EncodeIsBase64Text(key);
    var a, b, c := fields[0], fields[1], fields[2];
    assert fields[1..] == [b, c] && fields[1..][1..] == [c];
    assert Join([b, c], Separator) == b + [Separator] + c;
    assert Format(iterations, salt, key) == a + [Separator] + (b + [Separator] + c);
    assert Format(iterations, salt, key) == Join(fields, Separator);
    SplitJoin(fields, Separator);
  }

  /** Parsing undoes formatting whenever the key derivation accepts the
      count and the salt. */
  lemma FormatParse(iterations: Int32, salt: seq<Byte>, key: seq<Byte>)
    requires DeriveCheck(salt, iterations).None?
    ensures ParseCredential(Format(iterations, salt, key)) == Some(Credential(iterations, salt, key))
  {
    FormatFields(iterations, salt, key);
    ParseInt32ToString(iterations);
    Base64.EncodeDecode(salt);
    Base64.EncodeDecode(key);
  }

  /** Verify returns true exactly when the password is present, the stored
      text parses, and the re-derived key equals the stored key. */
  lemma VerifyMatchesIff(kdf: Kdf, password: Option<string>, stored: Option<string>)
    ensures Verify(kdf, password, stored) == Returned(true) <==>
      && password.Some? && stored.Some?
      && ParseCredential(stored.value).Some?
      && var c := ParseCredential(stored.value).value;
         kdf(password.value, c.salt, c.iterations) == c.key
  {
  }

  /** Wherever Verify returns, the corrected verifier gives the same answer;
      wherever it throws, the corrected verifier says "no match". */
  lemma VerifyTotalAgrees(kdf: Kdf, password: Option<string>, stored: Option<string>)
    ensures Verify(kdf, password, stored).Returned? ==>
      VerifyTotal(kdf, password, stored) == Verify(kdf, password, stored).value
    ensures Verify(kdf, password, stored).Threw? ==> !VerifyTotal(kdf, password, stored)
  {
  }

  /** A stored text that parses makes Verify return, not throw: it returns
      whether the re-derived key equals the stored key. */
  lemma VerifyParsed(kdf: Kdf, password: string, stored: string)
    requires ParseCredential(stored).Some?
    ensures var c := ParseCredential(stored).value;
      Verify(kdf, Some(password), Some(stored)) == Returned(kdf(password, c.salt, c.iterations) == c.key)
  {
  }

  /** A stored key that does not decode to 32 bytes never matches; when the
      count and salt are acceptable, Verify returns false rather than
      throwing. */
  lemma WrongKeyLengthNeverMatches(kdf: Kdf, password: Option<string>, stored: string, storedHash: seq<Byte>)
    requires |Split(stored, Separator)| == 3
    requires Base64.Decode(Split(stored, Separator)[2]) == Some(storedHash)
    requires |storedHash| != KeyLength
    ensures Verify(kdf, password, Some(stored)) != Returned(true)
    ensures !VerifyTotal(kdf, password, Some(stored))
    ensures ParseCredential(stored).Some? ==> Verify(kdf, password, Some(stored)) == Returned(false)
  {
  }

  /** No stored text, an empty one or no password: false, not an exception. */
  lemma MissingInputRejected(kdf: Kdf, password: Option<string>, stored: Option<string>)
    ensures Verify(kdf, password, None) == Returned(false)
    ensures Verify(kdf, password, Some("")) == Returned(false)
    ensures Verify(kdf, None, stored) == Returned(false)
  {
  }

  /** Any stored text with other than exactly two '.' is rejected. */
  lemma WrongFieldCountRejected(kdf: Kdf, password: Option<string>, stored: string)
    requires Count(stored, Separator) != 2
    ensures Verify(kdf, password, Some(stored)) == Returned(false)
  {
  }

  /** Two hashes of one password with different salts are different texts,
      and each verifies the password. */
  lemma DifferentSaltsDifferentTexts(kdf: Kdf, password: string, iterations: Int32, s1: Salt, s2: Salt)
    requires iterations > 0 && s1 != s2
    ensures
      var t1 := Format(iterations, s1, kdf(password, s1, iterations));
      var t2 := Format(iterations, s2, kdf(password, s2, iterations));
      && t1 != t2
      && Verify(kdf, Some(password), Some(t1)) == Returned(true)
      && Verify(kdf, Some(password), Some(t2)) == Returned(true)
  {
    HashedText(kdf, password, iterations, s1);
    HashedText(kdf, password, iterations, s2);
  }

  /** The stored text "10000.@@@@.AAAA" has three fields and a valid count,
      but its salt field is not base 64: Verify throws FormatException
      instead of returning false. */
  lemma MalformedSaltThrows(kdf: Kdf, password: string)
    ensures Verify(kdf, Some(password), Some("10000.@@@@.AAAA")) == Threw(FormatException)
  {
    var fields := ["10000", "@@@@", "AAAA"];
    assert "10000.@@@@.AAAA" == Join(fields, Separator);
    SplitJoin(fields, Separator);
    ParseInt32ToString(10000);
    TenThousandToString();
    assert TryParseInt32(fields[0]) == Some(10000);
    assert Base64.StripWhitespace("@@@@") == "@@@@";
    assert Base64.Decode(fields[1]).None?;
  }

  /** "only.two" has two fields: false, not an exception. */
  lemma TwoFieldsRejected(kdf: Kdf, password: Option<string>)
    ensures Verify(kdf, password, Some("only.two")) == Returned(false)
  {
  }

  /** Three fields whose first is not an Int32: false, whatever follows. */
  lemma NonInt32CountRejected(kdf: Kdf, password: Option<string>, stored: string)
    requires |Split(stored, Separator)| == 3
    requires TryParseInt32(Split(stored, Separator)[0]).None?
    ensures Verify(kdf, password, Some(stored)) == Returned(false)
  {
  }

  /** The text "notanint.c2FsdA==.aGFzaA==" gives false. */
  lemma NonNumericCountRejected(kdf: Kdf, password: Option<string>)
    ensures Verify(kdf, password, Some("notanint.c2FsdA==.aGFzaA==")) == Returned(false)
  {
    var fields := ["notanint", "c2FsdA==", "aGFzaA=="];
    assert "notanint.c2FsdA==.aGFzaA==" == Join(fields, Separator);
    SplitJoin(fields, Separator);
    assert SkipWhite(fields[0]) == fields[0] && LeadingDigits(fields[0]) == 0;
    assert TryParseInt32(fields[0]) == None;
  }

  /** The administrator seeded at start-up, Hash("admin123") with the default
      count: its first field reads "10000" and it verifies "admin123". */
  lemma SeededAdminCredential(kdf: Kdf, salt: Salt)
    ensures
      var stored := Format(DefaultIterations, salt, kdf("admin123", salt, DefaultIterations));
      && Split(stored, Separator)[0] == "10000"
      && Verify(kdf, Some("admin123"), Some(stored)) == Returned(true)
  {
    HashedText(kdf, "admin123", DefaultIterations, salt);
    TenThousandToString();
  }
}
