/** The obfuscating key-value store over `localStorage`
    (services/storageService.ts): values are serialised to JSON,
    URI-component encoded, XOR-ed with a fixed salt and Base64 encoded, and
    kept under keys with a fixed prefix. It is reversible obfuscation, not
    encryption; only the round trip is modelled. */
module StorageService {
  import opened Wrappers
  import opened WebCodec

  const SecretSalt: string := "TISA_SECURE_v2_2025"

  /** Every storage key `SecureDB` writes starts with this. */
  const KeyPrefix: string := "_tisa_"

  lemma SaltIsAscii()
    ensures |SecretSalt| == 19 && IsAscii(SecretSalt)
  {
  }

  /** JavaScript's `^` on the non-negative operands it sees here, bit by
      bit from the lowest. */
  function Xor(a: nat, b: nat): nat
    decreases a + b
  {
    if a == 0 && b == 0 then 0 else (a + b) % 2 + 2 * Xor(a / 2, b / 2)
  }

  /** A number is its lowest bit plus twice the rest. */
  lemma LowBitAndHalf(x: int, low: int, high: int)
    requires (low == 0 || low == 1) && x == low + 2 * high
    ensures x % 2 == low && x / 2 == high
  {
  }

  /** Two naturals with the same lowest bit and the same half are equal. */
  lemma SameBits(x: nat, y: nat)
    requires x % 2 == y % 2 && x / 2 == y / 2
    ensures x == y
  {
  }

  lemma SameParity(x: int, a: int, b: int)
    requires x % 2 == (a + b) % 2
    ensures (x + b) % 2 == a % 2
  {
  }

  /** One step of `Xor`: the lowest bit, then the rest shifted down. */
  lemma XorStep(a: nat, b: nat)
    ensures Xor(a, b) % 2 == (a + b) % 2 && Xor(a, b) / 2 == Xor(a / 2, b / 2)
  {
    if a != 0 || b != 0 {
      LowBitAndHalf(Xor(a, b), (a + b) % 2, Xor(a / 2, b / 2));
    }
  }

  lemma {:induction false} XorSelfInverse(a: nat, b: nat)
    ensures Xor(Xor(a, b), b) == a
    decreases a + b
  {
    var x := Xor(a, b);
    if a != 0 || b != 0 {
      XorStep(a, b);
      XorSelfInverse(a / 2, b / 2);
      XorStep(x, b);
      SameParity(x, a, b);
      SameBits(Xor(x, b), a);
    }
  }

  function Pow2(n: nat): nat
  {
    if n == 0 then 1 else 2 * Pow2(n - 1)
  }

  /** XOR of two n-bit numbers is an n-bit number. */
  lemma {:induction false} XorBelow(a: nat, b: nat, n: nat)
    requires a < Pow2(n) && b < Pow2(n)
    ensures Xor(a, b) < Pow2(n)
    decreases n
  {
    if (a != 0 || b != 0) && n != 0 {
      XorBelow(a / 2, b / 2, n - 1);
    }
  }

  lemma Pow2Values()
    ensures Pow2(7) == 128 && Pow2(8) == 256
  {
    assert Pow2(4) == 16;
  }

  function XorChar(c: char, k: char): (r: char)
    requires c as int < 256 && k as int < 256
    ensures r as int == Xor(c as int, k as int) && r as int < 256
  {
    Pow2Values();
    XorBelow(c as int, k as int, 8);
    Xor(c as int, k as int) as char
  }

  lemma XorCharInvolution(c: char, k: char)
    requires c as int < 256 && k as int < 256
    ensures XorChar(XorChar(c, k), k) == c
  {
    XorSelfInverse(c as int, k as int);
  }

  /** `String.fromCharCode(s.charCodeAt(i) ^ salt.charCodeAt(i % 19))` for
      every position `i`: the step `encrypt` and `decrypt` share. */
  function XorWithSalt(s: string): (r: string)
    requires IsLatin1(s)
    ensures |r| == |s| && IsLatin1(r)
    ensures forall i :: 0 <= i < |s| ==> r[i] as int == Xor(s[i] as int, SecretSalt[i % |SecretSalt|] as int)
  {
    SaltIsAscii();
    seq(|s|, i requires 0 <= i < |s| => XorChar(s[i], SecretSalt[i % |SecretSalt|]))
  }

  /** XOR with the salt undoes itself. */
  lemma XorWithSaltInvolution(s: string)
    requires IsLatin1(s)
    ensures XorWithSalt(XorWithSalt(s)) == s
  {
    SaltIsAscii();
    var once := XorWithSalt(s);
    var twice := XorWithSalt(once);
    forall i | 0 <= i < |s| ensures twice[i] == s[i] {
      var k := SecretSalt[i % |SecretSalt|];
      assert once[i] == XorChar(s[i], k);
      assert twice[i] == XorChar(once[i], k);
      XorCharInvolution(s[i], k);
    }
  }

  /** XOR of an ASCII text with the ASCII salt stays ASCII, so `btoa` never
      refuses what `encrypt` hands it. */
  lemma XorKeepsAscii(s: string)
    requires IsAscii(s)
    ensures IsAscii(XorWithSalt(s))
  {
    SaltIsAscii();
    var r := XorWithSalt(s);
    Pow2Values();
    forall i | 0 <= i < |s| ensures r[i] as int < 128 {
      var k := SecretSalt[i % |SecretSalt|];
      assert r[i] == XorChar(s[i], k);
      XorBelow(s[i] as int, k as int, 7);
    }
  }

  /** `encrypt`: encodeURIComponent, XOR with the salt, btoa. */
  function Encrypt(text: string): (r: string)
    ensures r == [] <==> text == []
    ensures IsAscii(r)
  {
    var x := XorWithSalt(EncodeURIComponent(text));
    XorKeepsAscii(EncodeURIComponent(text));
    BtoaEmpty(x);
    BtoaAscii(x);
    Btoa(x).value
  }

  /** `decrypt`: atob, XOR with the salt, decodeURIComponent; any failure
      on the way gives the empty string instead of an exception. */
  function Decrypt(encoded: string): (r: string)
    ensures Atob(encoded).None? ==> r == []
    ensures Atob(encoded).Some? && DecodeURIComponent(XorWithSalt(Atob(encoded).value)).None? ==> r == []
  {
    match Atob(encoded)
    case None => ""
    case Some(decoded) =>
      match DecodeURIComponent(XorWithSalt(decoded))
      case None => ""
      case Some(text) => text
  }

  /** Every text survives the trip through the store's encoding. */
  lemma DecryptEncrypt(text: string)
    ensures Decrypt(Encrypt(text)) == text
  {
    var u := EncodeURIComponent(text);
    var x := XorWithSalt(u);
    XorKeepsAscii(u);
    AtobBtoa(x);
    XorWithSaltInvolution(u);
    DecodeEncodeURIComponent(text);
  }

  /** `JSON.stringify` and `JSON.parse` for the values of one key; parse
      gives None where it throws. */
  datatype Json<!T> = Json(stringify: T -> string, parse: string -> Option<T>)

  /** What the store takes for granted of JSON: a value's text is never
      empty and parses back to the value. */
  ghost predicate JsonRoundTrips<T(!new)>(json: Json<T>)
  {
    forall d: T :: json.stringify(d) != [] && json.parse(json.stringify(d)) == Some(d)
  }

  /** The storage after `save(key, data)`. */
  function Saved<T>(items: map<string, string>, key: string, data: T, json: Json<T>): (r: map<string, string>)
    ensures r.Keys == items.Keys + {KeyPrefix + key}
    ensures r[KeyPrefix + key] == Encrypt(json.stringify(data))
    ensures forall k :: k in items && k != KeyPrefix + key ==> r[k] == items[k]
  {
    items[KeyPrefix + key := Encrypt(json.stringify(data))]
  }

  /** What `load(key)` returns: None for a missing or empty entry, for an
      entry that decrypts to the empty string, and where parsing fails. */
  function Loaded<T>(items: map<string, string>, key: string, json: Json<T>): (r: Option<T>)
    ensures KeyPrefix + key !in items ==> r.None?
    ensures r.Some? ==> Decrypt(items[KeyPrefix + key]) != [] && json.parse(Decrypt(items[KeyPrefix + key])) == r
  {
    var k := KeyPrefix + key;
    if k !in items || items[k] == [] then None
    else
      var text := Decrypt(items[k]);
      if text == [] then None else json.parse(text)
  }

  /** The storage after `clear()`. */
  function Cleared(items: map<string, string>): (r: map<string, string>)
    ensures forall k :: k in r <==> k in items && !(KeyPrefix <= k)
    ensures forall k :: k in r ==> r[k] == items[k]
  {
    map k | k in items && !(KeyPrefix <= k) :: items[k]
  }

  /** Loading a key right after saving it gives back the saved value. */
  lemma LoadAfterSave<T(!new)>(items: map<string, string>, key: string, data: T, json: Json<T>)
    requires JsonRoundTrips(json)
    ensures Loaded(Saved(items, key, data, json), key, json) == Some(data)
  {
    var text := json.stringify(data);
    assert text != [] && json.parse(text) == Some(data);
    DecryptEncrypt(text);
  }

  /** Saving one key leaves what every other key loads unchanged. */
  lemma SaveKeepsOtherKeys<T, U>(items: map<string, string>, key: string, data: T, json: Json<T>,
                                 other: string, json': Json<U>)
    requires other != key
    ensures Loaded(Saved(items, key, data, json), other, json') == Loaded(items, other, json')
  {
    assert (KeyPrefix + other)[|KeyPrefix|..] == other;
    assert (KeyPrefix + key)[|KeyPrefix|..] == key;
  }

  /** After `clear()` nothing saved through the store can be loaded. */
  lemma LoadAfterClear<T>(items: map<string, string>, key: string, json: Json<T>)
    ensures Loaded(Cleared(items), key, json).None?
  {
    assert KeyPrefix <= KeyPrefix + key;
  }

  /** `SecureDB` acting on the browser's `localStorage`, whose entries are
      the `items` field. */
  class SecureDB {
    var items: map<string, string>

    constructor (items: map<string, string>)
      ensures this.items == items
    {
      this.items := items;
    }

    /** `setItem("_tisa_" + key, encrypt(JSON.stringify(data)))`. */
    method Save<T>(key: string, data: T, json: Json<T>)
      modifies this
      ensures items == Saved(old(items), key, data, json)
    {
      var jsonString := json.stringify(data);
      var encryptedData := Encrypt(jsonString);
      items := items[KeyPrefix + key := encryptedData];
    }

    method Load<T>(key: string, json: Json<T>) returns (r: Option<T>)
      ensures r == Loaded(items, key, json)
    {
      var storageKey := KeyPrefix + key;
      if storageKey !in items || items[storageKey] == [] {
        return None;
      }
      var decryptedString := Decrypt(items[storageKey]);
      if decryptedString == [] {
        return None;
      }
      r := json.parse(decryptedString);
    }

    /** Walks the keys present when it starts and removes those with the
        store's prefix. */
    method Clear()
      modifies this
      ensures items == Cleared(old(items))
    {
      var keys := items.Keys;
      while keys != {}
        invariant keys <= old(items).Keys
        invariant items == map k | k in old(items) && (k in keys || !(KeyPrefix <= k)) :: old(items)[k]
        decreases keys
      {
        var key :| key in keys;
        if KeyPrefix <= key {
          items := items - {key};
        }
        keys := keys - {key};
      }
    }
  }
}
