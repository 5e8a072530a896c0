# AgendaDigital credential codec and session, in Dafny

AgendaDigital is a WinForms contact-agenda application. Apart from forms and
Entity Framework queries, it has two pieces of logic, and this project models both:

- **PasswordHasher** (`AgendaDigital/Utils/PasswordHasher.cs`). `Hash` stores a
  password as the text `iterations.saltBase64.hashBase64`. It takes a 16-byte
  random salt and a 32-byte PBKDF2 key (`Rfc2898DeriveBytes`). `Verify` splits
  such a text on `'.'`, parses the count with `int.TryParse` and decodes the
  two base-64 fields. It then re-derives the key and compares it byte by byte.
- **SesionActual** (`AgendaDigital/SesionActual.cs`). This is the process-wide
  record of the logged-in user: `IdUsuario`, `NombreUsuario`, `Nombre` and
  `Rol`. It has the derived test `EsAdministrador` and the reset `CerrarSesion`.

Files:

- `common.dfy`: `Byte`, `Int32`, `Option`, and `Outcome` (a call either returns
  a value or throws a named .NET exception).
- `base64.dfy`: `Convert.ToBase64String` / `Convert.FromBase64String`, written
  out in full (section 4 of RFC 4648, `'='` padding).
- `text.dfy`: `String.Split(char)`, `Int32.ToString()` and `Int32.TryParse`
  (default `NumberStyles.Integer`).
- `password_hasher.dfy`: `Hash` as a method, `Verify` as a function, and their
  lemmas.
- `sesion_actual.dfy`: the session as a class with the four fields, their
  setters, `EsAdministrador` and `CerrarSesion`.

Modelling choices:

- PBKDF2 is a function-valued parameter `kdf: Kdf`. It is total and
  deterministic, and its result type `Key` fixes the length at 32 bytes.
- The random salt that `RNGCryptoServiceProvider.GetBytes` writes is `Hash`'s
  parameter `randomSalt`.
- A C# `null` is `None` of an `Option`.
- A thrown exception is `Threw(e)`.
- The application targets .NET Framework (it uses Entity Framework 6). So the
  `Rfc2898DeriveBytes` constructor rejects a salt under 8 bytes with
  `ArgumentException`, and only then rejects a count `<= 0` with
  `ArgumentOutOfRangeException`.
- The static class `SesionActual` is one instance of the Dafny class
  `Sessions.SesionActual`.

## Model

| member | source | states |
|---|---|---|
| `Base64.Encode` | AgendaDigital/Utils/PasswordHasher.cs:25 | Convert.ToBase64String: each 3 bytes become 4 alphabet characters; a final 1 or 2 bytes become 2 or 3 characters padded with `'='` (definition; its properties are the Base64 lemmas below) |
| `Base64.Decode` | AgendaDigital/Utils/PasswordHasher.cs:39-40 | Convert.FromBase64String: drops white space, then decodes groups of 4; only the last group may carry `'='`; `None` where .NET throws FormatException (definition) |
| `Base64.EncodeDecode` | AgendaDigital/Utils/PasswordHasher.cs:39-40 | FromBase64String gives back exactly the bytes ToBase64String encoded |
| `Base64.EncodeLength` | AgendaDigital/Utils/PasswordHasher.cs:25 | the encoding has 4 characters per started group of 3 bytes |
| `Base64.EncodeIsBase64Text` | AgendaDigital/Utils/PasswordHasher.cs:25 | the encoding uses only the 64 alphabet characters and `'='`, so never `'.'` |
| `Text.Split` | AgendaDigital/Utils/PasswordHasher.cs:34 | String.Split(char): the pieces between separators, empty ones included; its ensures: one more piece than separators, and no piece contains the separator |
| `Text.Int32ToString` | AgendaDigital/Utils/PasswordHasher.cs:25 | the `{iterations}` interpolation: an optional `'-'` and the decimal digits without leading zeros (definition) |
| `Text.TryParseInt32` | AgendaDigital/Utils/PasswordHasher.cs:38 | int.TryParse: optional white space, optional sign, one or more digits, optional white space and NULs, value within Int32; `None` where TryParse returns false (definition) |
| `Text.JoinSplit` | AgendaDigital/Utils/PasswordHasher.cs:34 | joining the pieces of `Split('.')` with `'.'` rebuilds the text, so no character is lost |
| `Text.SplitJoin` | AgendaDigital/Utils/PasswordHasher.cs:34-35 | fields without `'.'` joined by `'.'` split back into exactly those fields |
| `Text.SplitKeepsEmptyPieces` | AgendaDigital/Utils/PasswordHasher.cs:34-35 | empty pieces count: `"a..b"` splits into three pieces |
| `Text.ParseInt32ToString` | AgendaDigital/Utils/PasswordHasher.cs:25-38 | `int.TryParse` reads back every Int32 that the interpolation `{iterations}` writes |
| `Text.Int32ToStringChars` | AgendaDigital/Utils/PasswordHasher.cs:25 | the written count contains no `'.'` (and no `'='`) |
| `Text.TenThousandToString` | AgendaDigital/Utils/PasswordHasher.cs:14 | the default count 10000 is written `"10000"` |
| `PasswordHasher.Format` | AgendaDigital/Utils/PasswordHasher.cs:25 | the stored text: count, `'.'`, salt in base 64, `'.'`, key in base 64 (definition) |
| `PasswordHasher.DeriveCheck` | AgendaDigital/Utils/PasswordHasher.cs:43 | the argument checks of the Rfc2898DeriveBytes constructor: a salt under 8 bytes gives ArgumentException, then a count `<= 0` gives ArgumentOutOfRangeException (definition) |
| `PasswordHasher.Verify` | AgendaDigital/Utils/PasswordHasher.cs:30-47 | Verify as written: false for missing input, a field count other than 3 or a non-Int32 count; FormatException for a non-base-64 field; the key-derivation exceptions; otherwise whether the re-derived key equals the stored bytes (definition; see the lemmas below) |
| `PasswordHasher.ParseCredential` | AgendaDigital/Utils/PasswordHasher.cs:34-43 | the stored texts Verify can check a password against: three fields, an Int32 count and two base-64 fields that the key derivation accepts (definition) |
| `PasswordHasher.VerifyTotal` | AgendaDigital/Utils/PasswordHasher.cs:30-47 | corrected verifier: false for every malformed text, otherwise the key comparison; never throws (definition; see VerifyTotalAgrees) |
| `PasswordHasher.Hash` | AgendaDigital/Utils/PasswordHasher.cs:14-28 | a null password throws ArgumentNullException and a count `<= 0` throws ArgumentOutOfRangeException; otherwise Hash returns three `'.'` fields (the count, 24 and 44 base-64 characters) that parse back to the count, the salt and the derived key, and Verify of the same password on that text returns true |
| `PasswordHasher.HashedText` | AgendaDigital/Utils/PasswordHasher.cs:14-47 | round trip: for a positive count, the text Hash writes splits into the three fields, parses back to its parts, and verifies the password under both Verify and VerifyTotal |
| `PasswordHasher.EncodedLengths` | AgendaDigital/Utils/PasswordHasher.cs:20-25 | a 16-byte salt encodes to 24 characters and a 32-byte key to 44 |
| `PasswordHasher.FormatFields` | AgendaDigital/Utils/PasswordHasher.cs:25 | the stored text splits on `'.'` into exactly the count, the salt encoding and the key encoding |
| `PasswordHasher.FormatParse` | AgendaDigital/Utils/PasswordHasher.cs:25-40 | parsing a formatted credential gives back its count, salt and key when the key derivation accepts them |
| `PasswordHasher.VerifyMatchesIff` | AgendaDigital/Utils/PasswordHasher.cs:30-47 | Verify returns true if and only if the password is present, the text parses into three acceptable fields, and the re-derived key equals the stored key |
| `PasswordHasher.VerifyTotalAgrees` | AgendaDigital/Utils/PasswordHasher.cs:30-47 | where Verify returns, the corrected verifier gives the same answer; where Verify throws, the corrected verifier answers false |
| `PasswordHasher.VerifyParsed` | AgendaDigital/Utils/PasswordHasher.cs:43-46 | on a text that parses, Verify returns (does not throw) exactly whether the re-derived key equals the stored key |
| `PasswordHasher.WrongKeyLengthNeverMatches` | AgendaDigital/Utils/PasswordHasher.cs:40-46 | a stored key that decodes to other than 32 bytes never matches; when the count and salt are acceptable, Verify returns false rather than throwing |
| `PasswordHasher.WrongFieldCountRejected` | AgendaDigital/Utils/PasswordHasher.cs:34-35 | a text with other than two `'.'` gives false, not an exception |
| `PasswordHasher.MissingInputRejected` | AgendaDigital/Utils/PasswordHasher.cs:32 | a null or empty stored text, or a null password, gives false |
| `PasswordHasher.TwoFieldsRejected` | AgendaDigital/Utils/PasswordHasher.cs:35 | `"only.two"` gives false |
| `PasswordHasher.NonInt32CountRejected` | AgendaDigital/Utils/PasswordHasher.cs:38 | any three-field text whose first field is not an Int32 gives false, not an exception |
| `PasswordHasher.NonNumericCountRejected` | AgendaDigital/Utils/PasswordHasher.cs:38 | the text `"notanint.c2FsdA==.aGFzaA=="` gives false |
| `PasswordHasher.MalformedSaltThrows` | AgendaDigital/Utils/PasswordHasher.cs:39 | `"10000.@@@@.AAAA"` makes Verify throw FormatException |
| `PasswordHasher.DifferentSaltsDifferentTexts` | AgendaDigital/Utils/PasswordHasher.cs:18-25 | two hashes of one password with different salts are different texts, and each verifies the password |
| `PasswordHasher.SeededAdminCredential` | AgendaDigital/Program.cs:42 | the seeded `Hash("admin123")` starts with the field `"10000"` and verifies `"admin123"` |
| `Sessions.IsAdminRole` | AgendaDigital/SesionActual.cs:23 | `Rol.ToUpper() == "ADMIN"` with ASCII upper-casing (definition; see AdminRoleSpelling) |
| `Sessions.AdminRoleSpelling` | AgendaDigital/SesionActual.cs:23 | `Rol.ToUpper() == "ADMIN"` holds exactly for the five letters of "admin" in any mix of cases |
| `Sessions.AdminRoleExamples` | AgendaDigital/SesionActual.cs:23 | `"Admin"`, `"admin"` and `"ADMIN"` are administrators; `"Usuario"` and `""` are not |
| `Sessions.SesionActual.constructor` | AgendaDigital/SesionActual.cs:13-20 | the initial session has id 0 and empty strings and is not an administrator |
| `Sessions.SesionActual.EsAdministrador` | AgendaDigital/SesionActual.cs:23 | true exactly when the role spells "admin" ignoring case; it reads the role field and nothing else |
| `Sessions.SesionActual.SetIdUsuario` | AgendaDigital/SesionActual.cs:13 | changes only the id; EsAdministrador is unchanged |
| `Sessions.SesionActual.SetNombreUsuario` | AgendaDigital/SesionActual.cs:16 | changes only the user name; EsAdministrador is unchanged |
| `Sessions.SesionActual.SetNombre` | AgendaDigital/SesionActual.cs:19 | changes only the display name; EsAdministrador is unchanged |
| `Sessions.SesionActual.SetRol` | AgendaDigital/SesionActual.cs:20 | changes only the role; EsAdministrador becomes the role test of the new role |
| `Sessions.SesionActual.CerrarSesion` | AgendaDigital/SesionActual.cs:26-32 | from any session, all four fields return to their initial values, so the reset is idempotent and the session is no longer an administrator |
| `Sessions.IniciarSesion` | AgendaDigital/Forms/FormLogin.cs:64-67 | after the login handler's four assignments, the session holds exactly the user's fields and is an administrator exactly when the user's role is |
| `Sessions.AdminLoginLogout` | AgendaDigital/SesionActual.cs:23-32 | logging in as "Admin" grants administrator; logging out clears it and empties the user name; a second logout changes nothing |

## Left out

- PBKDF2 and HMAC-SHA1 are not modelled. The key derivation is the parameter
  `kdf`. So "a different password gives false" is a property of PBKDF2
  (it holds with overwhelming probability), and it is not proved here.
- The random number generator is not modelled. Its output is `Hash`'s
  `randomSalt` parameter. Disposing of the generator and of the
  `Rfc2898DeriveBytes` object has no effect in the model.
- `Hash` takes the count explicitly. C#'s default value `iterations = 10000`
  is the constant `DefaultIterations`.
- Hash and Verify convert the password to UTF-8 bytes inside the library. That
  conversion is part of `kdf`.
- `Base64.Decode` ignores the unused low bits of the last character, as .NET
  does. So `Encode(Decode(s))` is not always `s`; only `Decode(Encode(b)) == b`
  is proved.
- `Text.TryParseInt32` follows the invariant culture: the signs are `'-'` and
  `'+'`. Other current cultures (other sign strings) are not modelled.
- `Sessions.IsAdminRole` upper-cases ASCII letters only. `String.ToUpper()`
  uses the current culture. Under a Turkish culture, `"admin"` becomes
  `"ADMİN"`, which is not an administrator. Under other cultures, the dotless
  `'ı'` upper-cases to `'I'`. Neither is modelled.
- Text is modelled as sequences of Unicode scalar values. A C# string may hold
  lone UTF-16 surrogates, and such passwords and stored texts are outside the
  model's domain. They would not change any outcome: such characters fail
  TryParse and base-64 decoding either way, and the password reaches only the
  key derivation.
- A `null` role is not modelled. The property setter accepts one, and
  `EsAdministrador` would then throw; here roles are never null.
- The static properties are read and written from one UI thread. Concurrency
  is not modelled.
- The forms, Entity Framework queries, the database context
  (`AgendaDigital/Data/AppDb.cs`), start-up seeding (`AgendaDigital/Program.cs`)
  and the model classes (`AgendaDigital/Models/*.cs`) are not part of this
  model. One exception: the administrator seed value is covered by
  `SeededAdminCredential`.

## Findings

| source | as written | input that shows it | evidently intended | confidence | as-written member | corrected member |
|---|---|---|---|---|---|---|
| AgendaDigital/Utils/PasswordHasher.cs:39-43 | Verify throws for a stored text whose salt or key field is not base 64 (FormatException), whose salt decodes to under 8 bytes (ArgumentException), or whose count is `<= 0` (ArgumentOutOfRangeException). The login handler at AgendaDigital/Forms/FormLogin.cs:54 does not catch these. | `"10000.@@@@.AAAA"` | false, as Verify already answers for a null, empty, wrongly split or non-numeric stored text (lines 32-38) | medium; not executed | `PasswordHasher.MalformedSaltThrows` (on `PasswordHasher.Verify`) | `PasswordHasher.VerifyTotalAgrees` (on `PasswordHasher.VerifyTotal`) |
