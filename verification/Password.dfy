/** Catalog password storage, internal/store/password.go, over an uninterpreted bcrypt. */
module Password {

  datatype Verdict = Fail | Ok | OkRehash

  /** bcrypt as the code sees it.  `hash(password, salt)` is None when bcrypt refuses the password. */
  datatype Bcrypt = Bcrypt(hash: (string, nat) -> Hashed, compare: (string, string) -> bool)

  datatype Hashed = Hash(text: string) | Refused

  /** The functional facts the code relies on: hashes carry the `$2` mark and verify their own password. */
  ghost predicate Lawful(b: Bcrypt) {
    forall password: string, salt: nat :: b.hash(password, salt).Hash? ==>
      "$2" <= b.hash(password, salt).text && b.compare(b.hash(password, salt).text, password)
  }

  /** An empty password hashes to an empty hash. */
  function HashCatalogPassword(b: Bcrypt, password: string, salt: nat): Hashed {
    if password == "" then Hash("") else b.hash(password, salt)
  }

  function VerifyCatalogPassword(b: Bcrypt, storedHash: string, legacyPlaintext: string, supplied: string): (v: Verdict)
    ensures v == Ok <==> storedHash != "" && "$2" <= storedHash && b.compare(storedHash, supplied)
    ensures v == OkRehash <==> v != Ok && legacyPlaintext != "" && legacyPlaintext == supplied
  {
    if storedHash != "" && "$2" <= storedHash && b.compare(storedHash, supplied) then Ok
    else if legacyPlaintext != "" && legacyPlaintext == supplied then OkRehash
    else Fail
  }

  /** A stored hash verifies the password it was made from, whatever plaintext lies beside it. */
  lemma HashVerifies(b: Bcrypt, password: string, salt: nat, legacyPlaintext: string)
    requires Lawful(b) && password != "" && HashCatalogPassword(b, password, salt).Hash?
    ensures VerifyCatalogPassword(b, HashCatalogPassword(b, password, salt).text, legacyPlaintext, password) == Ok
  {
    assert b.hash(password, salt).Hash?;
  }

  /** The upgrade of a legacy password: once the plaintext a login matched is replaced by its hash, the same password
      still logs in, and no login takes the legacy path again. */
  lemma LegacyUpgrade(b: Bcrypt, storedHash: string, legacyPlaintext: string, supplied: string, salt: nat,
                      later: string)
    requires Lawful(b) && VerifyCatalogPassword(b, storedHash, legacyPlaintext, supplied) == OkRehash
    requires HashCatalogPassword(b, supplied, salt).Hash?
    ensures supplied == legacyPlaintext
    ensures VerifyCatalogPassword(b, HashCatalogPassword(b, supplied, salt).text, "", supplied) == Ok
    ensures VerifyCatalogPassword(b, HashCatalogPassword(b, supplied, salt).text, "", later) != OkRehash
  {
    HashVerifies(b, supplied, salt, "");
  }
}
