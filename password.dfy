/**
 * Password hashing with scrypt. A stored hash is six '$'-separated fields:
 * "scrypt", N, r, p, the salt and the derived key, the last two in padded Base64.
 * scrypt itself and the random salt are parameters.
 */
module Password {
  import opened Wrappers
  import opened HttpErrors
  import Js
  import Base64

  type Byte = Base64.Byte

  datatype ScryptParams = ScryptParams(n: nat, r: nat, p: nat, dkLen: nat, saltLen: nat)

  /** Partial<ScryptParams>: a missing field takes the default. */
  datatype ParamsPatch = ParamsPatch(n: Option<nat>, r: Option<nat>, p: Option<nat>, dkLen: Option<nat>, saltLen: Option<nat>)

  const DEFAULT_SCRYPT: ScryptParams := ScryptParams(32768, 8, 1, 32, 16)
  const NO_PATCH: ParamsPatch := ParamsPatch(None, None, None, None, None)
  const ALGORITHM: string := "scrypt"

  /** `scryptSync(plain, salt, keylen, {N, r, p})`: the derived key, or what it throws. */
  type Scrypt = (string, seq<Byte>, nat, real, real, real) -> Result<seq<Byte>, Thrown>

  /** `{ ...DEFAULT_SCRYPT, ...patch }`. */
  function Merge(patch: ParamsPatch): (m: ScryptParams)
    ensures patch == NO_PATCH ==> m == DEFAULT_SCRYPT
  {
    ScryptParams(patch.n.GetOr(DEFAULT_SCRYPT.n), patch.r.GetOr(DEFAULT_SCRYPT.r), patch.p.GetOr(DEFAULT_SCRYPT.p),
                 patch.dkLen.GetOr(DEFAULT_SCRYPT.dkLen), patch.saltLen.GetOr(DEFAULT_SCRYPT.saltLen))
  }

  /** The stored form of a salt and derived key under the given parameters. */
  function Format(m: ScryptParams, salt: seq<Byte>, key: seq<Byte>): string
  {
    Js.Join(Fields(m, salt, key), '$')
  }

  /**
   * hashPassword: an empty password throws; otherwise a fresh salt of saltLen bytes,
   * a key of dkLen bytes, and the six-field stored form. A throwing scrypt propagates.
   */
  function HashPassword(scrypt: Scrypt, randomBytes: nat -> seq<Byte>, plain: string, patch: ParamsPatch)
    : (r: Result<string, Thrown>)
    ensures plain == "" ==> r == Err(ErrorInstance("Error", "password must be non-empty", []))
    ensures r.Ok? ==> var m := Merge(patch);
      var salt := randomBytes(m.saltLen);
      plain != "" && scrypt(plain, salt, m.dkLen, m.n as real, m.r as real, m.p as real).Ok?
      && r.value == Format(m, salt, scrypt(plain, salt, m.dkLen, m.n as real, m.r as real, m.p as real).value)
  {
    if plain == "" then Err(ErrorInstance("Error", "password must be non-empty", []))
    else
      var m := Merge(patch);
      var salt := randomBytes(m.saltLen);
      var key := scrypt(plain, salt, m.dkLen, m.n as real, m.r as real, m.p as real);
      if key.Err? then Err(key.error) else Ok(Format(m, salt, key.value))
  }

  /** The first six fields are present and non-empty and there are exactly six. */
  predicate SixFields(parts: seq<string>)
  {
    |parts| == 6 && forall k :: 0 <= k < 6 ==> parts[k] != ""
  }

  /** What verifyPassword reads from a stored hash: N, r, p and the two Base64 fields. */
  datatype StoredHash = StoredHash(n: real, r: real, p: real, salt: string, key: string)

  /**
   * The checks before scrypt runs: six non-empty fields, the algorithm scrypt, and
   * finite N, r and p.
   */
  function ParseStored(stored: string): (h: Option<StoredHash>)
    ensures h.Some? ==> stored != "" && SixFields(Js.Split(stored, '$')) && Js.Split(stored, '$')[0] == ALGORITHM
  {
    var parts := Js.Split(stored, '$');
    if stored == "" || !SixFields(parts) || parts[0] != ALGORITHM then None
    else
      var n, r, p := Js.StringToNumber(parts[1]), Js.StringToNumber(parts[2]), Js.StringToNumber(parts[3]);
      if !n.Finite? || !r.Finite? || !p.Finite? then None
      else Some(StoredHash(n.value, r.value, p.value, parts[4], parts[5]))
  }

  /** scrypt of the password with the stored salt gives the stored key. */
  predicate KeyMatches(scrypt: Scrypt, plain: string, h: StoredHash)
  {
    var salt, expected := Base64.DecodePadded(h.salt), Base64.DecodePadded(h.key);
    salt.Some? && expected.Some?
    && var actual := scrypt(plain, salt.value, |expected.value|, h.n, h.r, h.p);
       actual.Ok? && |actual.value| == |expected.value| && actual.value == expected.value
  }

  /**
   * verifyPassword: false, never an error, unless the stored text has six non-empty
   * fields, the algorithm is scrypt and N, r, p are finite numbers; then scrypt of the
   * password with the stored salt must give the stored key.
   */
  predicate VerifyPassword(scrypt: Scrypt, plain: string, stored: string)
  {
    var h := ParseStored(stored);
    h.Some? && KeyMatches(scrypt, plain, h.value)
  }

  /** A stored text that is not six non-empty fields starting with "scrypt" never verifies. */
  lemma MalformedNeverVerifies(scrypt: Scrypt, plain: string, stored: string)
    requires !SixFields(Js.Split(stored, '$')) || Js.Split(stored, '$')[0] != ALGORITHM
    ensures !VerifyPassword(scrypt, plain, stored)
  {
  }

  /** isPasswordHash: the text starts with "scrypt$". */
  predicate IsPasswordHash(value: string)
  {
    Js.StartsWith(value, ALGORITHM + "$")
  }

  /** N, r and p as needsPasswordRehash reads them: three non-empty fields of six, all finite. */
  function ParseCost(stored: string): Option<(real, real, real)>
  {
    var parts := Js.Split(stored, '$');
    if |parts| != 6 || parts[1] == "" || parts[2] == "" || parts[3] == "" then None
    else
      var n, r, p := Js.StringToNumber(parts[1]), Js.StringToNumber(parts[2]), Js.StringToNumber(parts[3]);
      if !n.Finite? || !r.Finite? || !p.Finite? then None
      else Some((n.value, r.value, p.value))
  }

  /**
   * needsPasswordRehash: true for a non-hash, for a malformed N/r/p, and otherwise
   * exactly when N, r or p differs from the target merged over the defaults.
   */
  predicate NeedsPasswordRehash(stored: string, target: ParamsPatch)
  {
    var cost := ParseCost(stored);
    var m := Merge(target);
    !IsPasswordHash(stored) || cost.None?
    || cost.value.0 != m.n as real || cost.value.1 != m.r as real || cost.value.2 != m.p as real
  }

  /** The six fields of a stored hash. */
  function Fields(m: ScryptParams, salt: seq<Byte>, key: seq<Byte>): seq<string>
  {
    [ALGORITHM, Js.NatToString(m.n), Js.NatToString(m.r), Js.NatToString(m.p),
     Base64.EncodePadded(salt), Base64.EncodePadded(key)]
  }

  lemma DigitsLackDollar(s: string)
    requires Js.AllDigits(s)
    ensures '$' !in s
  {
  }

  lemma FieldsLackDollar(m: ScryptParams, salt: seq<Byte>, key: seq<Byte>)
    ensures forall k :: 0 <= k < |Fields(m, salt, key)| ==> '$' !in Fields(m, salt, key)[k]
  {
    var parts := Fields(m, salt, key);
    AlgorithmLacksDollar();
    DigitsLackDollar(Js.NatToString(m.n));
    DigitsLackDollar(Js.NatToString(m.r));
    DigitsLackDollar(Js.NatToString(m.p));
    SixLack(parts, '$');
  }

  lemma AlgorithmLacksDollar()
    ensures '$' !in ALGORITHM
  {
  }

  lemma SixLack(parts: seq<string>, c: char)
    requires |parts| == 6 && c !in parts[0] && c !in parts[1] && c !in parts[2]
    requires c !in parts[3] && c !in parts[4] && c !in parts[5]
    ensures forall k :: 0 <= k < |parts| ==> c !in parts[k]
  {
    forall k | 0 <= k < |parts| ensures c !in parts[k] {
      if k < 3 {
        assert k == 0 || k == 1 || k == 2;
      } else {
        assert k == 3 || k == 4 || k == 5;
      }
    }
  }

  /** The fields of a stored hash split back out. */
  lemma FormatFields(m: ScryptParams, salt: seq<Byte>, key: seq<Byte>)
    ensures Js.Split(Format(m, salt, key), '$') == Fields(m, salt, key)
  {
    var parts := Fields(m, salt, key);
    FieldsLackDollar(m, salt, key);
    Js.SplitJoin(parts, '$');
  }

  /** Stored text whose fields are those of a hash verifies the password that gives its key. */
  lemma VerifyFromFields(scrypt: Scrypt, plain: string, stored: string, m: ScryptParams, salt: seq<Byte>, key: seq<Byte>)
    requires Js.Split(stored, '$') == Fields(m, salt, key)
    requires salt != [] && key != []
    requires scrypt(plain, salt, |key|, m.n as real, m.r as real, m.p as real) == Ok(key)
    ensures VerifyPassword(scrypt, plain, stored)
  {
    ParseOfFields(stored, m, salt, key);
    Base64.PaddedRoundTrip(salt);
    Base64.PaddedRoundTrip(key);
  }

  /** Six fields with the algorithm first and three finite numbers parse as those numbers and texts. */
  lemma ParseOfParts(stored: string, na: string, ra: string, pa: string, saltText: string, keyText: string,
                     n: real, r: real, p: real)
    requires Js.Split(stored, '$') == [ALGORITHM, na, ra, pa, saltText, keyText]
    requires na != "" && ra != "" && pa != "" && saltText != "" && keyText != ""
    requires Js.StringToNumber(na) == Js.Finite(n) && Js.StringToNumber(ra) == Js.Finite(r)
    requires Js.StringToNumber(pa) == Js.Finite(p)
    ensures ParseStored(stored) == Some(StoredHash(n, r, p, saltText, keyText))
    ensures ParseCost(stored) == Some((n, r, p))
  {
    var parts := Js.Split(stored, '$');
    assert Js.Split("", '$') == [""];
    assert SixFields(parts);
    assert parts[1] == na && parts[2] == ra && parts[3] == pa;
    ParseStoredOfParts(stored, parts, n, r, p);
    ParseCostOfParts(stored, parts, n, r, p);
  }

  lemma ParseCostOfParts(stored: string, parts: seq<string>, n: real, r: real, p: real)
    requires parts == Js.Split(stored, '$') && SixFields(parts)
    requires Js.StringToNumber(parts[1]) == Js.Finite(n) && Js.StringToNumber(parts[2]) == Js.Finite(r)
    requires Js.StringToNumber(parts[3]) == Js.Finite(p)
    ensures ParseCost(stored) == Some((n, r, p))
  {
  }

  lemma ParseStoredOfParts(stored: string, parts: seq<string>, n: real, r: real, p: real)
    requires stored != "" && parts == Js.Split(stored, '$') && SixFields(parts) && parts[0] == ALGORITHM
    requires Js.StringToNumber(parts[1]) == Js.Finite(n) && Js.StringToNumber(parts[2]) == Js.Finite(r)
    requires Js.StringToNumber(parts[3]) == Js.Finite(p)
    ensures ParseStored(stored) == Some(StoredHash(n, r, p, parts[4], parts[5]))
  {
  }

  /** The numbers and the Base64 fields read back from a stored hash. */
  lemma ParseOfFields(stored: string, m: ScryptParams, salt: seq<Byte>, key: seq<Byte>)
    requires Js.Split(stored, '$') == Fields(m, salt, key)
    requires salt != [] && key != []
    ensures ParseStored(stored) ==
      Some(StoredHash(m.n as real, m.r as real, m.p as real, Base64.EncodePadded(salt), Base64.EncodePadded(key)))
    ensures ParseCost(stored) == Some((m.n as real, m.r as real, m.p as real))
  {
    Js.NumberOfNatString(m.n);
    Js.NumberOfNatString(m.r);
    Js.NumberOfNatString(m.p);
    ParseOfParts(stored, Js.NatToString(m.n), Js.NatToString(m.r), Js.NatToString(m.p),
                 Base64.EncodePadded(salt), Base64.EncodePadded(key), m.n as real, m.r as real, m.p as real);
  }

  /** Stored text whose fields are those of a hash under m is judged by m's N, r and p. */
  lemma RehashFromFields(stored: string, m: ScryptParams, salt: seq<Byte>, key: seq<Byte>, target: ParamsPatch)
    requires Js.Split(stored, '$') == Fields(m, salt, key)
    requires IsPasswordHash(stored)
    ensures NeedsPasswordRehash(stored, target) <==>
      m.n != Merge(target).n || m.r != Merge(target).r || m.p != Merge(target).p
  {
    Js.NumberOfNatString(m.n);
    Js.NumberOfNatString(m.r);
    Js.NumberOfNatString(m.p);
    assert ParseCost(stored) == Some((m.n as real, m.r as real, m.p as real));
  }

  /** Every hashPassword output is recognised as a hash. */
  lemma HashIsRecognised(scrypt: Scrypt, randomBytes: nat -> seq<Byte>, plain: string, patch: ParamsPatch)
    requires HashPassword(scrypt, randomBytes, plain, patch).Ok?
    ensures IsPasswordHash(HashPassword(scrypt, randomBytes, plain, patch).value)
  {
    var m := Merge(patch);
    var s := HashPassword(scrypt, randomBytes, plain, patch).value;
    var salt := randomBytes(m.saltLen);
    var parts := Fields(m, salt, scrypt(plain, salt, m.dkLen, m.n as real, m.r as real, m.p as real).value);
    assert s == ALGORITHM + "$" + Js.Join(parts[1..], '$');
  }

  /**
   * A password verifies against the hash made from it, when the salt and the key are
   * not empty and scrypt gives keys of the requested length.
   */
  lemma HashThenVerify(scrypt: Scrypt, randomBytes: nat -> seq<Byte>, plain: string, patch: ParamsPatch)
    requires HashPassword(scrypt, randomBytes, plain, patch).Ok?
    requires var m := Merge(patch);
      var salt := randomBytes(m.saltLen);
      salt != [] && m.dkLen > 0
      && |scrypt(plain, salt, m.dkLen, m.n as real, m.r as real, m.p as real).value| == m.dkLen
    ensures VerifyPassword(scrypt, plain, HashPassword(scrypt, randomBytes, plain, patch).value)
  {
    var m := Merge(patch);
    var salt := randomBytes(m.saltLen);
    var key := scrypt(plain, salt, m.dkLen, m.n as real, m.r as real, m.p as real).value;
    FormatFields(m, salt, key);
    VerifyFromFields(scrypt, plain, HashPassword(scrypt, randomBytes, plain, patch).value, m, salt, key);
  }

  /** A hash made with some parameters needs a rehash exactly when the target's N, r or p differ. */
  lemma RehashIffCostChanged(scrypt: Scrypt, randomBytes: nat -> seq<Byte>, plain: string, patch: ParamsPatch,
                             target: ParamsPatch)
    requires HashPassword(scrypt, randomBytes, plain, patch).Ok?
    ensures NeedsPasswordRehash(HashPassword(scrypt, randomBytes, plain, patch).value, target) <==>
      Merge(patch).n != Merge(target).n || Merge(patch).r != Merge(target).r || Merge(patch).p != Merge(target).p
  {
    var m := Merge(patch);
    var salt := randomBytes(m.saltLen);
    var key := scrypt(plain, salt, m.dkLen, m.n as real, m.r as real, m.p as real).value;
    FormatFields(m, salt, key);
    HashIsRecognised(scrypt, randomBytes, plain, patch);
    RehashFromFields(HashPassword(scrypt, randomBytes, plain, patch).value, m, salt, key, target);
  }

  /** In particular a default hash needs no rehash against the default target. */
  lemma DefaultHashNeedsNoRehash(scrypt: Scrypt, randomBytes: nat -> seq<Byte>, plain: string)
    requires HashPassword(scrypt, randomBytes, plain, NO_PATCH).Ok?
    ensures !NeedsPasswordRehash(HashPassword(scrypt, randomBytes, plain, NO_PATCH).value, NO_PATCH)
  {
    RehashIffCostChanged(scrypt, randomBytes, plain, NO_PATCH, NO_PATCH);
  }
}
