/**
 * PolyPasswordHasher (polypasswordhasher.py): a password store whose
 * entries are protected by a threshold secret.  An account with shares
 * stores, per share, the salted password hash XORed with a Shamir share;
 * a shielded account stores the salted hash encrypted under the secret
 * key; a bootstrap account, made while the store is locked, stores the
 * plain salted hash until the store is unlocked.
 *
 * The store is locked (`knownsecret` false) after loading a file and is
 * unlocked by recombining the shares of enough correct logins.  SHA-256,
 * AES and os.urandom come in as parameters (`Primitives`, salts, the
 * secret and its random coefficients).
 */
module PasswordStore {
  import opened Outcomes
  import opened Crypto
  import opened Polynomial
  import Shamir

  /** One stored entry; `passshash` is the key that unlock writes by mistake. */
  datatype Entry = Entry(sharenumber: int, salt: Bytes, passhash: Bytes, passshash: Option<Bytes>)

  type Accounts = map<string, seq<Entry>>

  const IcbIterations := 1000
  const RecombinationIterations := 100000
  const SecretLength := 32

  // ---------------------------------------------------------------------
  // Hashing and XOR

  /** sha256(salt + password). */
  function SaltedHash(P: Primitives, salt: Bytes, password: Bytes): Digest {
    P.sha256(salt + password)
  }

  /**
   * create_isolated_validation_bits: the last `icbs` bytes of the hash
   * rehashed 999 more times.
   */
  function IsolatedBits(P: Primitives, icbs: int, h: Bytes): (r: Bytes)
    ensures 0 <= icbs <= 32 ==> |r| == icbs
  {
    var d := Rehash(P.sha256, IcbIterations - 1, h);
    PyDrop(d, |d| - icbs)
  }

  /**
   * The check bytes of a password are the last `icbs` bytes of its salted
   * input hashed 1000 times in all: the salted hash and 999 rounds more.
   */
  lemma IsolatedBitsStretched(P: Primitives, icbs: int, salt: Bytes, password: Bytes)
    ensures var d := Rehash(P.sha256, IcbIterations, salt + password);
            IsolatedBits(P, icbs, SaltedHash(P, salt, password)) == PyDrop(d, |d| - icbs)
  {
    RehashAdd(P.sha256, 1, IcbIterations - 1, salt + password);
  }

  /** isolated_validation: the stored suffix equals the recomputed one. */
  function IsolatedCheck(P: Primitives, icbs: int, h: Bytes, stored: Bytes): bool {
    IsolatedBits(P, icbs, h) == PyDrop(stored, |stored| - icbs)
  }

  /** create_isolated_validation_bits, with its hashing loop. */
  method IsolatedValidationBits(P: Primitives, icbs: int, h: Bytes) returns (r: Bytes)
    ensures r == IsolatedBits(P, icbs, h)
  {
    var d := RehashLoop(P.sha256, IcbIterations, h);
    r := PyDrop(d, |d| - icbs);
  }

  /** _do_bytearray_XOR: equal lengths are asserted, then byte-wise XOR. */
  function Xor(a: Bytes, b: Bytes): (r: Result<Bytes>)
    ensures r.Ok? <==> |a| == |b|
    ensures r.Err? ==> r.error == XorLengthMismatch
    ensures r.Ok? ==> |r.value| == |a| && forall i :: 0 <= i < |a| ==> r.value[i] == a[i] ^ b[i]
  {
    if |a| != |b| then Err(XorLengthMismatch) else Ok(seq(|a|, i requires 0 <= i < |a| => a[i] ^ b[i]))
  }

  /** XOR with the same hash twice gives the data back. */
  lemma XorInvolution(a: Bytes, b: Bytes)
    requires |a| == |b|
    ensures Xor(a, Xor(a, b).value) == Ok(b)
  {
    var c := Xor(a, b).value;
    forall i | 0 <= i < |a|
      ensures a[i] ^ c[i] == b[i]
    {
      assert c[i] == a[i] ^ b[i];
    }
    assert Xor(a, c).value == b;
  }

  /** Unmasking with a different hash does not give back the masked data. */
  lemma XorOtherMask(a: Bytes, a': Bytes, b: Bytes)
    requires |a| == |a'| == |b| && a' != a
    ensures Xor(a', Xor(a, b).value) != Ok(b)
  {
    var i :| 0 <= i < |a| && a'[i] != a[i];
    XorOtherMaskAt(a, a', b, i);
  }

  /** At a byte where the two hashes differ, the unmasked byte differs from the data. */
  lemma XorOtherMaskAt(a: Bytes, a': Bytes, b: Bytes, i: int)
    requires |a| == |a'| == |b| && 0 <= i < |a| && a'[i] != a[i]
    ensures Xor(a', Xor(a, b).value).value[i] != b[i]
  {
    ByteXorCancel(a[i], a'[i], b[i]);
  }


  /** _do_bytearray_XOR with its loop. */
  method BytearrayXor(a: Bytes, b: Bytes) returns (r: Result<Bytes>)
    ensures r == Xor(a, b)
  {
    if |a| != |b| {
      return Err(XorLengthMismatch);
    }
    var result: Bytes := [];
    for pos := 0 to |a|
      invariant |result| == pos
      invariant forall i :: 0 <= i < pos ==> result[i] == a[i] ^ b[i]
    {
      result := result + [a[pos] ^ b[pos]];
    }
    assert result == Xor(a, b).value;
    return Ok(result);
  }

  // ---------------------------------------------------------------------
  // The fingerprint of the secret

  /** Every coefficient list cut to its first t bytes, concatenated in order. */
  function Prefixes(coefs: seq<seq<bv8>>, t: int): Bytes
    decreases |coefs|
  {
    if coefs == [] then [] else Prefixes(coefs[..|coefs| - 1], t) + PyTake(coefs[|coefs| - 1], t)
  }

  /**
   * create_integrity_check: the hash of the secret followed by every
   * coefficient list cut to the threshold, rehashed 99999 more times.
   */
  function Fingerprint(P: Primitives, t: int, secret: Bytes, coefs: seq<seq<bv8>>): (r: Bytes)
    ensures |r| == 32
  {
    Rehash(P.sha256, RecombinationIterations - 1, P.sha256(secret + Prefixes(coefs, t)))
  }

  /**
   * The integrity check is a hash stretched 100000 times in all: the hash
   * of the secret and the prefixes, then 99999 rounds more.
   */
  lemma FingerprintStretched(P: Primitives, t: int, secret: Bytes, coefs: seq<seq<bv8>>)
    ensures Fingerprint(P, t, secret, coefs) == Rehash(P.sha256, RecombinationIterations, secret + Prefixes(coefs, t))
  {
    RehashAdd(P.sha256, 1, RecombinationIterations - 1, secret + Prefixes(coefs, t));
  }

  /** create_integrity_check, with its two loops. */
  method IntegrityCheck(P: Primitives, t: int, secret: Bytes, coefs: seq<seq<bv8>>) returns (d: Bytes)
    ensures d == Fingerprint(P, t, secret, coefs)
  {
    var hashed := secret;
    for k := 0 to |coefs|
      invariant hashed == secret + Prefixes(coefs[..k], t)
    {
      assert coefs[..k + 1][..k] == coefs[..k];
      hashed := hashed + PyTake(coefs[k], t);
    }
    assert coefs[..|coefs|] == coefs;
    d := RehashLoop(P.sha256, RecombinationIterations, P.sha256(hashed));
  }

  /** Cutting the zero-padded lists back to t bytes gives the same prefixes. */
  lemma {:induction false} PrefixesOfPadded(coefs: seq<seq<bv8>>, t: int, n: nat)
    requires forall k :: 0 <= k < |coefs| ==> |coefs[k]| == t <= n
    ensures Prefixes(Shamir.Padded(coefs, n), t) == Prefixes(coefs, t)
    decreases |coefs|
  {
    if coefs != [] {
      var init := coefs[..|coefs| - 1];
      var p := Shamir.Padded(coefs, n);
      assert forall k :: 0 <= k < |init| ==> |init[k]| == t <= n by {
        forall k | 0 <= k < |init|
          ensures |init[k]| == t <= n
        {
          assert init[k] == coefs[k];
        }
      }
      PrefixesOfPadded(init, t, n);
      assert p[..|p| - 1] == Shamir.Padded(init, n);
      assert PyTake(p[|p| - 1], t) == coefs[|coefs| - 1];
    }
  }

  /**
   * Recovery from enough genuine shares reproduces the fingerprint taken
   * when the store was created: verify_secret accepts it.
   */
  lemma GenuineRecoveryFingerprint(P: Primitives, t: int, coefs: seq<seq<bv8>>, shares: seq<Shamir.Share>)
    requires 1 <= t <= |shares|
    requires forall k :: 0 <= k < |coefs| ==> |coefs[k]| == t
    requires Shamir.Genuine(coefs, shares)
    ensures Shamir.Recovery(t, false, shares).Ok?
    ensures var rec := Shamir.Recovery(t, false, shares).value;
            Fingerprint(P, t, rec.secret, rec.coefficients) == Fingerprint(P, t, Shamir.Secrets(coefs), coefs)
  {
    Shamir.RecoverRoundTrip(t, coefs, shares);
    PrefixesOfPadded(coefs, t, |shares|);
  }

  // ---------------------------------------------------------------------
  // Entries

  /** The entry of a 0-share account made while locked: the plain salted hash. */
  function BootstrapEntry(P: Primitives, salt: Bytes, password: Bytes): Entry {
    Entry(-1, salt, SaltedHash(P, salt, password), None)
  }

  /** The entry of a 0-share account: the encrypted salted hash and the check bytes. */
  function ShieldedEntry(P: Primitives, key: Bytes, icbs: int, salt: Bytes, password: Bytes): Entry {
    var h := SaltedHash(P, salt, password);
    Entry(0, salt, P.encrypt(key, h) + IsolatedBits(P, icbs, h), None)
  }

  /** The entries the share loop of create_account made, and why it stopped early if it did. */
  datatype Issued = Issued(entries: seq<Entry>, failure: Option<Error>)

  /**
   * The share loop of create_account for share numbers first .. first+n-1:
   * compute the share, hash the password with a fresh salt, XOR the two
   * and append the check bytes.  A share or XOR that raises stops the loop
   * with the entries made so far.
   */
  function IssueShares(P: Primitives, icbs: int, coefficients: Option<seq<seq<bv8>>>,
                       password: Bytes, salt: nat -> Bytes, first: int, n: nat): (r: Issued)
    ensures |r.entries| <= n
    ensures r.failure.None? ==> |r.entries| == n
    ensures forall k :: 0 <= k < |r.entries| ==>
              r.entries[k].sharenumber == first + k && r.entries[k].salt == salt(k)
  {
    if n == 0 then Issued([], None)
    else
      var prev := IssueShares(P, icbs, coefficients, password, salt, first, n - 1);
      if prev.failure.Some? then prev
      else
        var share := Shamir.ShareAt(coefficients, first + n - 1);
        if share.Err? then Issued(prev.entries, Some(share.error))
        else
          var h := SaltedHash(P, salt(n - 1), password);
          var masked := Xor(h, share.value.bytes);
          if masked.Err? then Issued(prev.entries, Some(masked.error))
          else Issued(prev.entries + [Entry(first + n - 1, salt(n - 1), masked.value + IsolatedBits(P, icbs, h), None)], None)
  }

  /** No share numbers, no entries. */
  lemma IssueSharesNone(P: Primitives, icbs: int, coefficients: Option<seq<seq<bv8>>>,
                        password: Bytes, salt: nat -> Bytes, first: int)
    ensures IssueShares(P, icbs, coefficients, password, salt, first, 0) == Issued([], None)
  {
  }

  /** One more turn of the share loop after an uninterrupted run. */
  lemma IssueSharesStep(P: Primitives, icbs: int, coefficients: Option<seq<seq<bv8>>>,
                        password: Bytes, salt: nat -> Bytes, first: int, k: nat, entries: seq<Entry>)
    requires IssueShares(P, icbs, coefficients, password, salt, first, k) == Issued(entries, None)
    ensures IssueShares(P, icbs, coefficients, password, salt, first, k + 1) ==
              var share := Shamir.ShareAt(coefficients, first + k);
              if share.Err? then Issued(entries, Some(share.error))
              else
                var h := SaltedHash(P, salt(k), password);
                var masked := Xor(h, share.value.bytes);
                if masked.Err? then Issued(entries, Some(masked.error))
                else Issued(entries + [Entry(first + k, salt(k), masked.value + IsolatedBits(P, icbs, h), None)], None)
  {
  }

  /** The share loop does not go on after a failure. */
  lemma IssueSharesErr(P: Primitives, icbs: int, coefficients: Option<seq<seq<bv8>>>,
                       password: Bytes, salt: nat -> Bytes, first: int, n: nat)
    requires n > 0 && IssueShares(P, icbs, coefficients, password, salt, first, n - 1).failure.Some?
    ensures IssueShares(P, icbs, coefficients, password, salt, first, n) ==
              IssueShares(P, icbs, coefficients, password, salt, first, n - 1)
  {
  }

  /** Once the share loop has stopped, later share numbers add nothing. */
  lemma {:induction false} IssueSharesStops(P: Primitives, icbs: int, coefficients: Option<seq<seq<bv8>>>,
                                            password: Bytes, salt: nat -> Bytes, first: int, i: nat, n: nat)
    requires i <= n && IssueShares(P, icbs, coefficients, password, salt, first, i).failure.Some?
    ensures IssueShares(P, icbs, coefficients, password, salt, first, n) ==
              IssueShares(P, icbs, coefficients, password, salt, first, i)
    decreases n
  {
    hide *;
    if n > i {
      IssueSharesStops(P, icbs, coefficients, password, salt, first, i, n - 1);
      IssueSharesErr(P, icbs, coefficients, password, salt, first, n);
    }
  }

  /**
   * With coefficients for a 32-byte secret and share numbers inside
   * 1..255, the share loop never stops early.
   */
  lemma {:induction false} IssueSharesComplete(P: Primitives, icbs: int, coefs: seq<seq<bv8>>,
                                               password: Bytes, salt: nat -> Bytes, first: int, n: nat)
    requires |coefs| == SecretLength && 1 <= first && first + n - 1 <= 255
    ensures IssueShares(P, icbs, Some(coefs), password, salt, first, n).failure.None?
    decreases n
  {
    if n > 0 {
      IssueSharesComplete(P, icbs, coefs, password, salt, first, n - 1);
      var prev := IssueShares(P, icbs, Some(coefs), password, salt, first, n - 1);
      IssueSharesStep(P, icbs, Some(coefs), password, salt, first, n - 1, prev.entries);
      hide IssueShares;
    }
  }

  /** Bootstrap conversion as unlock writes it: ciphertext under 'passshash', share number 0. */
  function Converted(P: Primitives, key: Bytes, e: Entry): Entry {
    e.(sharenumber := 0, passshash := Some(P.encrypt(key, e.passhash)))
  }

  /**
   * Every name in the pending list is a different account holding one
   * bootstrap entry.
   */
  predicate Pending(accounts: Accounts, bootstrap: seq<string>) {
    (forall i :: 0 <= i < |bootstrap| ==>
       bootstrap[i] in accounts && |accounts[bootstrap[i]]| == 1 && accounts[bootstrap[i]][0].sharenumber == -1) &&
    forall i, j :: 0 <= i < j < |bootstrap| ==> bootstrap[i] != bootstrap[j]
  }

  /**
   * The bootstrap loop of unlock_password_data as written: every pending
   * account's entry is converted.
   */
  function Shield(P: Primitives, key: Bytes, accounts: Accounts, bootstrap: seq<string>): (r: Accounts)
    requires Pending(accounts, bootstrap)
    ensures r.Keys == accounts.Keys
    decreases |bootstrap|
  {
    if bootstrap == [] then accounts
    else
      var prev := Shield(P, key, accounts, bootstrap[..|bootstrap| - 1]);
      var u := bootstrap[|bootstrap| - 1];
      prev[u := [Converted(P, key, accounts[u][0])]]
  }

  /**
   * After the conversion as written every pending account holds its
   * converted entry, and every other account is as it was.
   */
  lemma {:induction false} ShieldAccounts(P: Primitives, key: Bytes, accounts: Accounts, bootstrap: seq<string>)
    requires Pending(accounts, bootstrap)
    ensures forall u :: u in accounts && u in bootstrap ==>
              Shield(P, key, accounts, bootstrap)[u] == [Converted(P, key, accounts[u][0])]
    ensures forall u :: u in accounts && u !in bootstrap ==> Shield(P, key, accounts, bootstrap)[u] == accounts[u]
    decreases |bootstrap|
  {
    if bootstrap != [] {
      var init := bootstrap[..|bootstrap| - 1];
      assert Pending(accounts, init);
      ShieldAccounts(P, key, accounts, init);
      assert forall u :: u in bootstrap <==> u in init || u == bootstrap[|bootstrap| - 1];
    }
  }

  /**
   * The conversion unlock evidently intends: the entry becomes a shielded
   * entry, the encrypted hash followed by its check bytes.
   */
  function ConvertedCorrected(P: Primitives, key: Bytes, icbs: int, e: Entry): Entry {
    e.(sharenumber := 0, passhash := P.encrypt(key, e.passhash) + IsolatedBits(P, icbs, e.passhash))
  }

  /** The bootstrap loop of unlock_password_data with the corrected conversion. */
  function ShieldCorrected(P: Primitives, key: Bytes, icbs: int, accounts: Accounts, bootstrap: seq<string>): (r: Accounts)
    requires Pending(accounts, bootstrap)
    ensures r.Keys == accounts.Keys
    decreases |bootstrap|
  {
    if bootstrap == [] then accounts
    else
      var prev := ShieldCorrected(P, key, icbs, accounts, bootstrap[..|bootstrap| - 1]);
      var u := bootstrap[|bootstrap| - 1];
      prev[u := [ConvertedCorrected(P, key, icbs, accounts[u][0])]]
  }

  /**
   * After the corrected conversion every pending account holds the
   * converted form of its bootstrap entry, and every other account is as
   * it was.
   */
  lemma {:induction false} ShieldCorrectedAccounts(P: Primitives, key: Bytes, icbs: int, accounts: Accounts, bootstrap: seq<string>)
    requires Pending(accounts, bootstrap)
    ensures forall u :: u in accounts && u in bootstrap ==>
              ShieldCorrected(P, key, icbs, accounts, bootstrap)[u] == [ConvertedCorrected(P, key, icbs, accounts[u][0])]
    ensures forall u :: u in accounts && u !in bootstrap ==>
              ShieldCorrected(P, key, icbs, accounts, bootstrap)[u] == accounts[u]
    decreases |bootstrap|
  {
    if bootstrap != [] {
      var init := bootstrap[..|bootstrap| - 1];
      assert Pending(accounts, init);
      ShieldCorrectedAccounts(P, key, icbs, accounts, init);
      assert forall u :: u in bootstrap <==> u in init || u == bootstrap[|bootstrap| - 1];
    }
  }

  /**
   * The corrected conversion only turns pending entries into shielded ones,
   * so the share numbers stay below the same counter and stay unique.
   */
  lemma ShieldKeepsNumbers(P: Primitives, key: Bytes, icbs: int, accounts: Accounts, bootstrap: seq<string>, next: int)
    requires Pending(accounts, bootstrap)
    ensures NumbersBelow(accounts, next) ==> NumbersBelow(ShieldCorrected(P, key, icbs, accounts, bootstrap), next)
    ensures NumbersUnique(accounts) ==> NumbersUnique(ShieldCorrected(P, key, icbs, accounts, bootstrap))
  {
    ShieldCorrectedAccounts(P, key, icbs, accounts, bootstrap);
  }

  /**
   * A bootstrap entry converted as written keeps its plain hash under
   * share number 0; once unlocked, its login cuts the check bytes off a
   * hash that has none and the XOR raises.
   */
  lemma ConvertedBootstrapLoginRaises(P: Primitives, icbs: int, key: Bytes, coefficients: Option<seq<seq<bv8>>>,
                                      salt: Bytes, password: Bytes)
    requires 1 <= icbs <= 32
    ensures CheckEntry(P, true, icbs, Some(key), coefficients,
                       Converted(P, key, BootstrapEntry(P, salt, password)), password) == Err(XorLengthMismatch)
  {
  }

  /**
   * A bootstrap entry converted the corrected way is the shielded entry of
   * the same salt and password, so a password that opened it while locked
   * still opens it once unlocked.
   */
  lemma ConvertedCorrectedLogsIn(P: Primitives, icbs: int, key: Bytes, coefficients: Option<seq<seq<bv8>>>,
                                 salt: Bytes, password: Bytes)
    requires 0 <= icbs <= 32 && |P.encrypt(key, SaltedHash(P, salt, password))| == 32
    ensures ConvertedCorrected(P, key, icbs, BootstrapEntry(P, salt, password)) == ShieldedEntry(P, key, icbs, salt, password)
    ensures CheckEntry(P, true, icbs, Some(key), coefficients,
                       ConvertedCorrected(P, key, icbs, BootstrapEntry(P, salt, password)), password) == Ok(true)
  {
    ShieldedEntryLogsIn(P, icbs, key, coefficients, salt, password);
  }

  // ---------------------------------------------------------------------
  // Logins

  /**
   * The body of is_valid_login's loop for one entry; every branch returns,
   * so this entry alone decides.
   */
  function CheckEntry(P: Primitives, known: bool, icbs: int, key: Option<Bytes>,
                      coefficients: Option<seq<seq<bv8>>>, e: Entry, password: Bytes): Result<bool>
    requires known ==> key.Some?
  {
    var h := SaltedHash(P, e.salt, password);
    if e.sharenumber == -1 then Ok(h == e.passhash)
    else if !known then Ok(IsolatedCheck(P, icbs, h, e.passhash))
    else
      var body := PyTake(e.passhash, |e.passhash| - icbs);
      var sharedata := Xor(h, body);
      if sharedata.Err? then Err(sharedata.error)
      else if e.sharenumber == 0 then Ok(P.encrypt(key.value, h) == body)
      else Shamir.ValidShare(coefficients, Shamir.Share(e.sharenumber, sharedata.value))
  }

  /**
   * is_valid_login: a locked store without check bytes refuses first, an
   * unknown user next; then the account's first entry decides.  An account
   * without entries falls out of the loop (None, false to callers).
   */
  function Login(P: Primitives, known: bool, icbs: int, key: Option<Bytes>, coefficients: Option<seq<seq<bv8>>>,
                 accounts: Accounts, username: string, password: Bytes): (r: Result<bool>)
    requires known ==> key.Some?
    ensures !known && icbs == 0 ==> r == Err(PartialBytesDisabled)
    ensures (known || icbs != 0) && username !in accounts ==> r == Err(UnknownUser)
    ensures (known || icbs != 0) && username in accounts && accounts[username] == [] ==> r == Ok(false)
    ensures (known || icbs != 0) && username in accounts && accounts[username] != [] ==>
              r == CheckEntry(P, known, icbs, key, coefficients, accounts[username][0], password)
  {
    if !known && icbs == 0 then Err(PartialBytesDisabled)
    else if username !in accounts then Err(UnknownUser)
    else if accounts[username] == [] then Ok(false)
    else CheckEntry(P, known, icbs, key, coefficients, accounts[username][0], password)
  }

  /** A bootstrap entry accepts its own password, locked or not. */
  lemma BootstrapEntryLogsIn(P: Primitives, known: bool, icbs: int, key: Option<Bytes>,
                             coefficients: Option<seq<seq<bv8>>>, salt: Bytes, password: Bytes)
    requires known ==> key.Some?
    ensures CheckEntry(P, known, icbs, key, coefficients, BootstrapEntry(P, salt, password), password) == Ok(true)
  {
  }

  /**
   * A shielded entry accepts its own password once unlocked, when the
   * cipher keeps the 32-byte length (as AES does on two blocks).
   */
  lemma ShieldedEntryLogsIn(P: Primitives, icbs: int, key: Bytes, coefficients: Option<seq<seq<bv8>>>,
                            salt: Bytes, password: Bytes)
    requires 0 <= icbs <= 32 && |P.encrypt(key, SaltedHash(P, salt, password))| == 32
    ensures CheckEntry(P, true, icbs, Some(key), coefficients, ShieldedEntry(P, key, icbs, salt, password), password) == Ok(true)
  {
    var h := SaltedHash(P, salt, password);
    var e := ShieldedEntry(P, key, icbs, salt, password);
    SuffixLength(e.passhash, icbs);
    assert PyTake(e.passhash, |e.passhash| - icbs) == P.encrypt(key, h);
  }

  /**
   * A share entry accepts its own password once unlocked: XOR with the
   * salted hash gives back the share, and the sharer recognises it.
   */
  lemma ShareEntryLogsIn(P: Primitives, icbs: int, key: Bytes, coefs: seq<seq<bv8>>,
                         password: Bytes, salt: nat -> Bytes, first: int, n: nat, k: nat)
    requires 0 <= icbs <= 32 && |coefs| == SecretLength
    requires k < |IssueShares(P, icbs, Some(coefs), password, salt, first, n).entries|
    ensures CheckEntry(P, true, icbs, Some(key), Some(coefs),
                       IssueShares(P, icbs, Some(coefs), password, salt, first, n).entries[k], password) == Ok(true)
  {
    IssuedEntry(P, icbs, coefs, password, salt, first, n, k);
    var e := IssueShares(P, icbs, Some(coefs), password, salt, first, n).entries[k];
    var h := SaltedHash(P, salt(k), password);
    var share := Shamir.ShareAt(Some(coefs), first + k).value;
    var masked := Xor(h, share.bytes).value;
    SuffixLength(e.passhash, icbs);
    assert PyTake(e.passhash, |e.passhash| - icbs) == masked;
    XorInvolution(h, share.bytes);
  }

  /** What entry k of the share loop holds. */
  lemma {:induction false} IssuedEntry(P: Primitives, icbs: int, coefs: seq<seq<bv8>>,
                                       password: Bytes, salt: nat -> Bytes, first: int, n: nat, k: nat)
    requires k < |IssueShares(P, icbs, Some(coefs), password, salt, first, n).entries|
    ensures var share := Shamir.ShareAt(Some(coefs), first + k);
            var h := SaltedHash(P, salt(k), password);
            share.Ok? && |h| == |share.value.bytes| &&
            IssueShares(P, icbs, Some(coefs), password, salt, first, n).entries[k] ==
              Entry(first + k, salt(k), Xor(h, share.value.bytes).value + IsolatedBits(P, icbs, h), None)
    decreases n
  {
    hide *;
    var prev := IssueShares(P, icbs, Some(coefs), password, salt, first, n - 1);
    if prev.failure.Some? {
      IssueSharesErr(P, icbs, Some(coefs), password, salt, first, n);
      IssuedEntry(P, icbs, coefs, password, salt, first, n - 1, k);
    } else {
      IssueSharesStep(P, icbs, Some(coefs), password, salt, first, n - 1, prev.entries);
      if k < |prev.entries| {
        IssuedEntry(P, icbs, coefs, password, salt, first, n - 1, k);
      }
    }
  }

  /**
   * While locked, an entry that ends in the check bytes of its own salted
   * hash (every shielded and share entry) accepts its password by
   * isolated validation alone.
   */
  lemma LockedEntryLogsIn(P: Primitives, icbs: int, coefficients: Option<seq<seq<bv8>>>,
                          e: Entry, body: Bytes, password: Bytes)
    requires 0 <= icbs <= 32 && e.sharenumber != -1
    requires e.passhash == body + IsolatedBits(P, icbs, SaltedHash(P, e.salt, password))
    ensures CheckEntry(P, false, icbs, None, coefficients, e, password) == Ok(true)
  {
    SuffixLength(e.passhash, icbs);
    assert e.passhash[|e.passhash| - icbs..] == IsolatedBits(P, icbs, SaltedHash(P, e.salt, password));
  }


  /**
   * A bootstrap entry refuses, locked or not, a password whose salted hash
   * differs from the stored one.
   */
  lemma BootstrapEntryRejects(P: Primitives, known: bool, icbs: int, key: Option<Bytes>,
                              coefficients: Option<seq<seq<bv8>>>, salt: Bytes, password: Bytes, other: Bytes)
    requires known ==> key.Some?
    requires SaltedHash(P, salt, other) != SaltedHash(P, salt, password)
    ensures CheckEntry(P, known, icbs, key, coefficients, BootstrapEntry(P, salt, password), other) == Ok(false)
  {
  }

  /**
   * Once unlocked, a shielded entry refuses a password whose salted hash
   * differs, when the cipher under the key is one-to-one: the answer is
   * False, or the XOR raises when the ciphertext is not 32 bytes long.
   */
  lemma ShieldedEntryRejects(P: Primitives, icbs: int, key: Bytes, coefficients: Option<seq<seq<bv8>>>,
                             salt: Bytes, password: Bytes, other: Bytes)
    requires 0 <= icbs <= 32
    requires forall a, b :: P.encrypt(key, a) == P.encrypt(key, b) ==> a == b
    requires SaltedHash(P, salt, other) != SaltedHash(P, salt, password)
    ensures CheckEntry(P, true, icbs, Some(key), coefficients, ShieldedEntry(P, key, icbs, salt, password), other) ==
              if |P.encrypt(key, SaltedHash(P, salt, password))| == 32 then Ok(false) else Err(XorLengthMismatch)
  {
    var h := SaltedHash(P, salt, password);
    var e := ShieldedEntry(P, key, icbs, salt, password);
    SuffixLength(e.passhash, icbs);
    assert PyTake(e.passhash, |e.passhash| - icbs) == P.encrypt(key, h);
  }

  /**
   * Once unlocked, a share entry refuses a password whose salted hash
   * differs: XOR with that hash gives bytes other than the share, and the
   * sharer answers False.
   */
  lemma ShareEntryRejects(P: Primitives, icbs: int, key: Bytes, coefs: seq<seq<bv8>>,
                          password: Bytes, other: Bytes, salt: nat -> Bytes, first: int, n: nat, k: nat)
    requires 0 <= icbs <= 32 && |coefs| == SecretLength
    requires k < |IssueShares(P, icbs, Some(coefs), password, salt, first, n).entries|
    requires SaltedHash(P, salt(k), other) != SaltedHash(P, salt(k), password)
    ensures CheckEntry(P, true, icbs, Some(key), Some(coefs),
                       IssueShares(P, icbs, Some(coefs), password, salt, first, n).entries[k], other) == Ok(false)
  {
    IssuedEntry(P, icbs, coefs, password, salt, first, n, k);
    var e := IssueShares(P, icbs, Some(coefs), password, salt, first, n).entries[k];
    var h := SaltedHash(P, salt(k), password);
    var h' := SaltedHash(P, salt(k), other);
    var share := Shamir.ShareAt(Some(coefs), first + k).value;
    var masked := Xor(h, share.bytes).value;
    SuffixLength(e.passhash, icbs);
    assert PyTake(e.passhash, |e.passhash| - icbs) == masked;
    XorOtherMask(h, h', share.bytes);
  }

  /**
   * While locked, an entry refuses a password whose check bytes differ
   * from the ones it ends in.
   */
  lemma LockedEntryRejects(P: Primitives, icbs: int, coefficients: Option<seq<seq<bv8>>>,
                           e: Entry, body: Bytes, password: Bytes, other: Bytes)
    requires 0 <= icbs <= 32 && e.sharenumber != -1
    requires e.passhash == body + IsolatedBits(P, icbs, SaltedHash(P, e.salt, password))
    requires IsolatedBits(P, icbs, SaltedHash(P, e.salt, other)) != IsolatedBits(P, icbs, SaltedHash(P, e.salt, password))
    ensures CheckEntry(P, false, icbs, None, coefficients, e, other) == Ok(false)
  {
    SuffixLength(e.passhash, icbs);
    assert e.passhash[|e.passhash| - icbs..] == IsolatedBits(P, icbs, SaltedHash(P, e.salt, password));
  }
  /** Accounts that agree on an account's first entry agree on its logins. */
  lemma FirstEntryDecides(P: Primitives, known: bool, icbs: int, key: Option<Bytes>, coefficients: Option<seq<seq<bv8>>>,
                          a: Accounts, b: Accounts, username: string, password: Bytes)
    requires known ==> key.Some?
    requires username in a && username in b && |a[username]| >= 1 && |b[username]| >= 1
    requires a[username][0] == b[username][0]
    ensures Login(P, known, icbs, key, coefficients, a, username, password) ==
            Login(P, known, icbs, key, coefficients, b, username, password)
  {
  }

  /**
   * Unlocking as written breaks every pending account: whatever password
   * is offered, its login raises once the store is unlocked.
   */
  lemma UnlockedBootstrapLoginRaises(P: Primitives, icbs: int, key: Bytes, coefficients: Option<seq<seq<bv8>>>,
                                     accounts: Accounts, bootstrap: seq<string>, username: string, password: Bytes)
    requires Pending(accounts, bootstrap) && username in bootstrap && 1 <= icbs <= 32
    requires |accounts[username][0].passhash| == 32
    ensures Login(P, true, icbs, Some(key), coefficients, Shield(P, key, accounts, bootstrap), username, password) ==
              Err(XorLengthMismatch)
  {
    ShieldAccounts(P, key, accounts, bootstrap);
  }

  /**
   * Unlocking the corrected way keeps every pending account usable: a
   * password that matched the bootstrap hash logs in once unlocked.
   */
  lemma UnlockedBootstrapLoginKept(P: Primitives, icbs: int, key: Bytes, coefficients: Option<seq<seq<bv8>>>,
                                   accounts: Accounts, bootstrap: seq<string>, username: string, password: Bytes)
    requires Pending(accounts, bootstrap) && username in bootstrap && 0 <= icbs <= 32
    requires accounts[username][0].passhash == SaltedHash(P, accounts[username][0].salt, password)
    requires |P.encrypt(key, accounts[username][0].passhash)| == 32
    ensures Login(P, true, icbs, Some(key), coefficients, ShieldCorrected(P, key, icbs, accounts, bootstrap), username, password) ==
              Ok(true)
  {
    ShieldCorrectedAccounts(P, key, icbs, accounts, bootstrap);
    var h := accounts[username][0].passhash;
    var e := ConvertedCorrected(P, key, icbs, accounts[username][0]);
    SuffixLength(e.passhash, icbs);
    assert PyTake(e.passhash, |e.passhash| - icbs) == P.encrypt(key, h);
  }

  // ---------------------------------------------------------------------
  // Share numbers

  /** Every stored share number of 1 or more lies below next. */
  predicate NumbersBelow(accounts: Accounts, next: int) {
    forall u, i :: u in accounts && 0 <= i < |accounts[u]| && accounts[u][i].sharenumber >= 1 ==>
      accounts[u][i].sharenumber < next
  }

  /** No share number of 1 or more is stored twice. */
  predicate NumbersUnique(accounts: Accounts) {
    forall u, i, v, j ::
      u in accounts && v in accounts && 0 <= i < |accounts[u]| && 0 <= j < |accounts[v]| &&
      accounts[u][i].sharenumber >= 1 && (u != v || i != j) ==>
        accounts[u][i].sharenumber != accounts[v][j].sharenumber
  }

  /** m is the largest share number stored. */
  predicate IsLargest(accounts: Accounts, m: int) {
    (forall u, i :: u in accounts && 0 <= i < |accounts[u]| ==> accounts[u][i].sharenumber <= m) &&
    exists u, i :: u in accounts && 0 <= i < |accounts[u]| && accounts[u][i].sharenumber == m
  }

  /** The counter a loaded store starts from as written: the largest number added to itself. */
  function LoadedNextAsWritten(m: int): int {
    m + m
  }

  /** The counter a loaded store evidently should start from: the one after the largest number. */
  function LoadedNext(m: int): int {
    m + 1
  }

  /**
   * As written, a loaded store whose largest share number is 2 or more
   * skips fresh share numbers, and one whose largest is 128 or more can no
   * longer add any account, not even a 0-share one.
   */
  lemma LoadedNextAsWrittenSkips(accounts: Accounts, m: int)
    requires IsLargest(accounts, m) && m >= 2
    ensures NumbersBelow(accounts, m + 1) && m + 1 < LoadedNextAsWritten(m)
    ensures m >= 128 ==> 0 + LoadedNextAsWritten(m) > 255
  {
  }

  /**
   * The corrected counter is the least one above every stored share
   * number.
   */
  lemma LoadedNextLeast(accounts: Accounts, m: int)
    requires IsLargest(accounts, m) && m >= 1
    ensures NumbersBelow(accounts, LoadedNext(m))
    ensures forall c :: NumbersBelow(accounts, c) ==> LoadedNext(m) <= c
  {
    var u, i :| u in accounts && 0 <= i < |accounts[u]| && accounts[u][i].sharenumber == m;
    forall c | NumbersBelow(accounts, c)
      ensures LoadedNext(m) <= c
    {
      assert accounts[u][i].sharenumber < c;
    }
  }

  /**
   * Adding an account whose entries are numbered next, next+1, ... keeps
   * share numbers unique and below the advanced counter.
   */
  lemma AddShareAccount(accounts: Accounts, next: int, username: string, entries: seq<Entry>)
    requires username !in accounts && NumbersBelow(accounts, next)
    requires forall k :: 0 <= k < |entries| ==> entries[k].sharenumber == next + k
    ensures NumbersBelow(accounts[username := entries], next + |entries|)
    ensures NumbersUnique(accounts) ==> NumbersUnique(accounts[username := entries])
  {
  }

  /** Adding a 0-share account keeps share numbers unique and below the same counter. */
  lemma AddUnsharedAccount(accounts: Accounts, next: int, username: string, e: Entry)
    requires username !in accounts && NumbersBelow(accounts, next) && e.sharenumber <= 0
    ensures NumbersBelow(accounts[username := [e]], next)
    ensures NumbersUnique(accounts) ==> NumbersUnique(accounts[username := [e]])
  {
  }

  // ---------------------------------------------------------------------
  // Gathering shares for unlock

  /** The shares one login contributes: every entry except shielded ones. */
  function EntryShares(P: Primitives, icbs: int, entries: seq<Entry>, password: Bytes): (r: Result<seq<Shamir.Share>>)
    ensures r.Err? ==> r.error == XorLengthMismatch
    ensures r.Ok? ==> |r.value| <= |entries|
    decreases |entries|
  {
    if entries == [] then Ok([])
    else
      var prev := EntryShares(P, icbs, entries[..|entries| - 1], password);
      var e := entries[|entries| - 1];
      if prev.Err? || e.sharenumber == 0 then prev
      else
        var data := Xor(SaltedHash(P, e.salt, password), PyTake(e.passhash, |e.passhash| - icbs));
        if data.Err? then Err(data.error) else Ok(prev.value + [Shamir.Share(e.sharenumber, data.value)])
  }

  /** The shares of all logins, in order; an unknown user raises. */
  function LoginShares(P: Primitives, icbs: int, accounts: Accounts, logindata: seq<(string, Bytes)>): (r: Result<seq<Shamir.Share>>)
    ensures r.Err? ==> r.error == UnknownUser || r.error == XorLengthMismatch
    decreases |logindata|
  {
    if logindata == [] then Ok([])
    else
      var prev := LoginShares(P, icbs, accounts, logindata[..|logindata| - 1]);
      var login := logindata[|logindata| - 1];
      if prev.Err? then prev
      else if login.0 !in accounts then Err(UnknownUser)
      else
        var mine := EntryShares(P, icbs, accounts[login.0], login.1);
        if mine.Err? then Err(mine.error) else Ok(prev.value + mine.value)
  }

  /** One more login gathered. */
  lemma LoginSharesStep(P: Primitives, icbs: int, accounts: Accounts, logindata: seq<(string, Bytes)>, n: nat)
    requires n < |logindata|
    ensures LoginShares(P, icbs, accounts, logindata[..n + 1]) ==
              var prev := LoginShares(P, icbs, accounts, logindata[..n]);
              if prev.Err? then prev
              else if logindata[n].0 !in accounts then Err(UnknownUser)
              else
                var mine := EntryShares(P, icbs, accounts[logindata[n].0], logindata[n].1);
                if mine.Err? then Err(mine.error) else Ok(prev.value + mine.value)
  {
    assert logindata[..n + 1][..n] == logindata[..n];
  }

  /** One more entry gathered. */
  lemma EntrySharesStep(P: Primitives, icbs: int, entries: seq<Entry>, password: Bytes, i: nat)
    requires i < |entries|
    ensures EntryShares(P, icbs, entries[..i + 1], password) ==
              var prev := EntryShares(P, icbs, entries[..i], password);
              var e := entries[i];
              if prev.Err? || e.sharenumber == 0 then prev
              else
                var data := Xor(SaltedHash(P, e.salt, password), PyTake(e.passhash, |e.passhash| - icbs));
                if data.Err? then Err(data.error) else Ok(prev.value + [Shamir.Share(e.sharenumber, data.value)])
  {
    assert entries[..i + 1][..i] == entries[..i];
  }

  /** Once gathering has raised, later logins do not matter. */
  lemma {:induction false} LoginSharesStops(P: Primitives, icbs: int, accounts: Accounts,
                                            logindata: seq<(string, Bytes)>, i: nat, n: nat)
    requires i <= n <= |logindata| && LoginShares(P, icbs, accounts, logindata[..i]).Err?
    ensures LoginShares(P, icbs, accounts, logindata[..n]) == LoginShares(P, icbs, accounts, logindata[..i])
    decreases n
  {
    hide *;
    if n > i {
      LoginSharesStops(P, icbs, accounts, logindata, i, n - 1);
      LoginSharesStep(P, icbs, accounts, logindata, n - 1);
    }
  }

  /** Once an entry has raised, later entries do not matter. */
  lemma {:induction false} EntrySharesStops(P: Primitives, icbs: int, entries: seq<Entry>, password: Bytes, i: nat, n: nat)
    requires i <= n <= |entries| && EntryShares(P, icbs, entries[..i], password).Err?
    ensures EntryShares(P, icbs, entries[..n], password) == EntryShares(P, icbs, entries[..i], password)
    decreases n
  {
    hide *;
    if n > i {
      EntrySharesStops(P, icbs, entries, password, i, n - 1);
      EntrySharesStep(P, icbs, entries, password, n - 1);
    }
  }

  /**
   * A login of a bootstrap account contributes a share at x = -1, and a
   * recovery with such a share fails: bootstrap accounts cannot help to
   * unlock.
   */
  lemma BootstrapShareBlocksRecovery(t: int, known: bool, shares: seq<Shamir.Share>, s: Shamir.Share)
    requires s in shares && s.x == -1 && |s.bytes| > 0
    ensures Shamir.Recovery(t, known, shares).Err?
  {
    if Shamir.Recovery(t, known, shares).Ok? {
      Shamir.RecoveryNeedsByteXs(t, known, shares, s);
    }
  }

  /** The shares the sharer hands out for share numbers first .. first+n-1. */
  function IssuedShares(coefs: seq<seq<bv8>>, first: int, n: nat): (r: seq<Shamir.Share>)
    requires 1 <= first && first + n - 1 <= 255
    ensures |r| == n && forall k :: 0 <= k < n ==> Shamir.ShareAt(Some(coefs), first + k) == Ok(r[k])
  {
    seq(n, k requires 0 <= k < n => Shamir.ShareAt(Some(coefs), first + k).value)
  }

  /** Those shares come from the coefficients at different points. */
  lemma IssuedSharesGenuine(coefs: seq<seq<bv8>>, first: int, n: nat)
    requires 1 <= first && first + n - 1 <= 255
    ensures Shamir.Genuine(coefs, IssuedShares(coefs, first, n))
  {
    var r := IssuedShares(coefs, first, n);
    forall a, b | 0 <= a < b < n
      ensures r[a].x != r[b].x
    {
      assert r[a].x == first + a && r[b].x == first + b;
    }
  }

  /** One more share number, one more share. */
  lemma IssuedSharesSnoc(coefs: seq<seq<bv8>>, first: int, n: nat)
    requires 1 <= first && first + n - 1 <= 255 && n > 0
    ensures IssuedShares(coefs, first, n) ==
              IssuedShares(coefs, first, n - 1) + [Shamir.ShareAt(Some(coefs), first + n - 1).value]
  {
    var r, q := IssuedShares(coefs, first, n), IssuedShares(coefs, first, n - 1);
    assert forall k :: 0 <= k < n - 1 ==> r[k] == q[k] by {
      forall k | 0 <= k < n - 1
        ensures r[k] == q[k]
      {
        assert Shamir.ShareAt(Some(coefs), first + k) == Ok(r[k]) == Ok(q[k]);
      }
    }
    assert Shamir.ShareAt(Some(coefs), first + n - 1) == Ok(r[n - 1]);
  }

  /** No entries, no shares. */
  lemma EntrySharesNone(P: Primitives, icbs: int, password: Bytes)
    ensures EntryShares(P, icbs, [], password) == Ok([])
  {
  }

  /** Gathering from an entry list that ends in one more share entry. */
  lemma EntrySharesSnoc(P: Primitives, icbs: int, entries: seq<Entry>, e: Entry, password: Bytes)
    requires e.sharenumber != 0
    ensures EntryShares(P, icbs, entries + [e], password) ==
              var prev := EntryShares(P, icbs, entries, password);
              var data := Xor(SaltedHash(P, e.salt, password), PyTake(e.passhash, |e.passhash| - icbs));
              if prev.Err? then prev
              else if data.Err? then Err(data.error)
              else Ok(prev.value + [Shamir.Share(e.sharenumber, data.value)])
  {
    assert (entries + [e])[..|entries|] == entries;
  }

  /**
   * Logging in with the password of an account made with n shares gives
   * back exactly the shares it was made from.
   */
  lemma {:induction false} IssuedSharesGathered(P: Primitives, icbs: int, coefs: seq<seq<bv8>>,
                                                password: Bytes, salt: nat -> Bytes, first: int, n: nat)
    requires 0 <= icbs <= 32 && |coefs| == SecretLength && 1 <= first && first + n - 1 <= 255
    ensures EntryShares(P, icbs, IssueShares(P, icbs, Some(coefs), password, salt, first, n).entries, password) ==
              Ok(IssuedShares(coefs, first, n))
    decreases n
  {
    hide *;
    if n == 0 {
      IssueSharesNone(P, icbs, Some(coefs), password, salt, first);
      EntrySharesNone(P, icbs, password);
    } else {
      IssuedSharesGathered(P, icbs, coefs, password, salt, first, n - 1);
      GatheredOneMore(P, icbs, coefs, password, salt, first, n);
    }
  }

  /** The entry for share number first + n - 1 gives back that share, after the earlier ones. */
  lemma GatheredOneMore(P: Primitives, icbs: int, coefs: seq<seq<bv8>>, password: Bytes, salt: nat -> Bytes,
                        first: int, n: nat)
    requires 0 <= icbs <= 32 && |coefs| == SecretLength && 1 <= first && first + n - 1 <= 255 && n > 0
    requires EntryShares(P, icbs, IssueShares(P, icbs, Some(coefs), password, salt, first, n - 1).entries, password)
          == Ok(IssuedShares(coefs, first, n - 1))
    ensures EntryShares(P, icbs, IssueShares(P, icbs, Some(coefs), password, salt, first, n).entries, password)
         == Ok(IssuedShares(coefs, first, n))
  {
    hide *;
    IssuedSharesSnoc(coefs, first, n);
    var prev := IssueShares(P, icbs, Some(coefs), password, salt, first, n - 1);
    IssueSharesComplete(P, icbs, coefs, password, salt, first, n - 1);
    IssueSharesStep(P, icbs, Some(coefs), password, salt, first, n - 1, prev.entries);
    IssueSharesComplete(P, icbs, coefs, password, salt, first, n);
    assert Shamir.ShareAt(Some(coefs), first + n - 1).Ok?;
    var share := Shamir.ShareAt(Some(coefs), first + n - 1).value;
    var h := SaltedHash(P, salt(n - 1), password);
    assert Xor(h, share.bytes).Ok?;
    var masked := Xor(h, share.bytes).value;
    var e := Entry(first + n - 1, salt(n - 1), masked + IsolatedBits(P, icbs, h), None);
    assert IssueShares(P, icbs, Some(coefs), password, salt, first, n).entries == prev.entries + [e];
    EntrySharesSnoc(P, icbs, prev.entries, e, password);
    SuffixLength(e.passhash, icbs);
    assert PyTake(e.passhash, |e.passhash| - icbs) == masked;
    XorInvolution(h, share.bytes);
  }

  /**
   * An account holding at least threshold shares unlocks the store on its
   * own: its login recombines the shared secret, and the recombination
   * passes the fingerprint taken when the store was made.
   */
  lemma AccountUnlocks(P: Primitives, icbs: int, t: int, coefs: seq<seq<bv8>>, accounts: Accounts,
                       username: string, password: Bytes, salt: nat -> Bytes, first: int, n: nat)
    requires 0 <= icbs <= 32 && |coefs| == SecretLength && 1 <= first && first + n - 1 <= 255
    requires 1 <= t <= n && forall k :: 0 <= k < |coefs| ==> |coefs[k]| == t
    requires username in accounts && accounts[username] == IssueShares(P, icbs, Some(coefs), password, salt, first, n).entries
    ensures LoginShares(P, icbs, accounts, [(username, password)]) == Ok(IssuedShares(coefs, first, n))
    ensures var rec := Shamir.Recovery(t, false, IssuedShares(coefs, first, n));
            rec.Ok? && rec.value.secret == Shamir.Secrets(coefs) &&
            Fingerprint(P, t, rec.value.secret, rec.value.coefficients) == Fingerprint(P, t, Shamir.Secrets(coefs), coefs)
  {
    var logins := [(username, password)];
    assert LoginShares(P, icbs, accounts, logins[..0]) == Ok([]) by {
      assert logins[..0] == [];
    }
    LoginSharesStep(P, icbs, accounts, logins, 0);
    assert logins[..1] == logins;
    hide *;
    IssuedSharesGathered(P, icbs, coefs, password, salt, first, n);
    var shares := IssuedShares(coefs, first, n);
    assert logins[0].0 == username && logins[0].1 == password;
    assert EntryShares(P, icbs, accounts[username], password) == Ok(shares);
    assert [] + shares == shares;
    IssuedSharesGenuine(coefs, first, n);
    GenuineRecoveryFingerprint(P, t, coefs, IssuedShares(coefs, first, n));
    Shamir.RecoverRoundTrip(t, coefs, IssuedShares(coefs, first, n));
  }


  /** The share numbers a login gathers from an account's entries: all but the shielded ones (0). */
  function ShareNumbers(entries: seq<Entry>): (r: seq<int>)
    ensures |r| <= |entries|
    ensures forall a :: 0 <= a < |r| ==> r[a] != 0 && exists e :: e in entries && e.sharenumber == r[a]
    decreases |entries|
  {
    if entries == [] then []
    else
      var init := entries[..|entries| - 1];
      var e := entries[|entries| - 1];
      assert forall d :: d in init ==> d in entries;
      if e.sharenumber == 0 then ShareNumbers(init) else ShareNumbers(init) + [e.sharenumber]
  }

  /** The share numbers a sequence of logins gathers, in order. */
  function LoginNumbers(accounts: Accounts, logindata: seq<(string, Bytes)>): (r: seq<int>)
    requires forall j :: 0 <= j < |logindata| ==> logindata[j].0 in accounts
    ensures forall a :: 0 <= a < |r| ==>
              r[a] != 0 && exists j, e :: 0 <= j < |logindata| && e in accounts[logindata[j].0] && e.sharenumber == r[a]
    decreases |logindata|
  {
    if logindata == [] then []
    else
      var n := |logindata| - 1;
      var prev := LoginNumbers(accounts, logindata[..n]);
      var mine := ShareNumbers(accounts[logindata[n].0]);
      assert forall a :: 0 <= a < |mine| ==> (prev + mine)[|prev| + a] == mine[a];
      prev + mine
  }

  /**
   * An entry the store made from `password` and the sharer's coefficients:
   * a shielded entry, or a share entry whose stored hash is the share at
   * its number masked with the salted hash, followed by the check bytes.
   */
  predicate MadeFrom(P: Primitives, icbs: int, coefs: seq<seq<bv8>>, e: Entry, password: Bytes) {
    e.sharenumber == 0 ||
    (1 <= e.sharenumber <= 255 &&
     var h := SaltedHash(P, e.salt, password);
     var share := Shamir.ShareAt(Some(coefs), e.sharenumber).value;
     |share.bytes| == |h| && e.passhash == Xor(h, share.bytes).value + IsolatedBits(P, icbs, h))
  }

  /** Every entry of the share loop is made from its password. */
  lemma IssuedMadeFrom(P: Primitives, icbs: int, coefs: seq<seq<bv8>>, password: Bytes, salt: nat -> Bytes,
                       first: int, n: nat)
    ensures forall e :: e in IssueShares(P, icbs, Some(coefs), password, salt, first, n).entries ==>
              MadeFrom(P, icbs, coefs, e, password)
  {
    var entries := IssueShares(P, icbs, Some(coefs), password, salt, first, n).entries;
    hide IssueShares;
    forall e | e in entries
      ensures MadeFrom(P, icbs, coefs, e, password)
    {
      var k :| 0 <= k < |entries| && entries[k] == e;
      IssuedEntry(P, icbs, coefs, password, salt, first, n, k);
    }
  }

  /** The entries of a completed share loop are numbered first, first+1, ... */
  lemma IssuedNumbers(P: Primitives, icbs: int, coefs: seq<seq<bv8>>, password: Bytes, salt: nat -> Bytes,
                      first: int, n: nat)
    requires 0 <= icbs <= 32 && |coefs| == SecretLength && 1 <= first && first + n - 1 <= 255
    ensures ShareNumbers(IssueShares(P, icbs, Some(coefs), password, salt, first, n).entries) == Shamir.Consecutive(first, n)
  {
    var entries := IssueShares(P, icbs, Some(coefs), password, salt, first, n).entries;
    hide *;
    IssueSharesComplete(P, icbs, coefs, password, salt, first, n);
    NumbersOfShareEntries(entries);
  }

  /** Without shielded entries, every entry's number is gathered, in order. */
  lemma {:induction false} NumbersOfShareEntries(entries: seq<Entry>)
    requires forall i :: 0 <= i < |entries| ==> entries[i].sharenumber != 0
    ensures ShareNumbers(entries) == seq(|entries|, i requires 0 <= i < |entries| => entries[i].sharenumber)
    decreases |entries|
  {
    if entries != [] {
      NumbersOfShareEntries(entries[..|entries| - 1]);
    }
  }

  /**
   * Logging in with the password every entry of an account was made from
   * gathers the shares at the account's share numbers.
   */
  lemma {:induction false} EntriesGathered(P: Primitives, icbs: int, coefs: seq<seq<bv8>>, entries: seq<Entry>,
                                           password: Bytes)
    requires 0 <= icbs <= 32
    requires forall e :: e in entries ==> MadeFrom(P, icbs, coefs, e, password)
    ensures forall a :: 0 <= a < |ShareNumbers(entries)| ==> 1 <= ShareNumbers(entries)[a] <= 255
    ensures EntryShares(P, icbs, entries, password) == Ok(Shamir.SharesAt(coefs, ShareNumbers(entries)))
    decreases |entries|
  {
    if entries != [] {
      var n := |entries| - 1;
      var init, e := entries[..n], entries[n];
      assert e in entries && forall d :: d in init ==> d in entries;
      assert MadeFrom(P, icbs, coefs, e, password);
      EntriesGathered(P, icbs, coefs, init, password);
      EntrySharesStep(P, icbs, entries, password, n);
      assert entries[..n + 1] == entries;
      assert ShareNumbers(entries) == if e.sharenumber == 0 then ShareNumbers(init) else ShareNumbers(init) + [e.sharenumber];
      if e.sharenumber != 0 {
        GatheredMadeEntry(P, icbs, coefs, e, password);
        var share := Shamir.ShareAt(Some(coefs), e.sharenumber).value;
        Shamir.SharesAtAppend(coefs, ShareNumbers(init), [e.sharenumber]);
        hide *;
        assert Shamir.SharesAt(coefs, [e.sharenumber]) == [share];
        assert Shamir.Share(e.sharenumber, share.bytes) == share;
      }
    }
  }

  /** A share entry made from a password gives back its share when logged into with it. */
  lemma GatheredMadeEntry(P: Primitives, icbs: int, coefs: seq<seq<bv8>>, e: Entry, password: Bytes)
    requires 0 <= icbs <= 32 && e.sharenumber != 0 && MadeFrom(P, icbs, coefs, e, password)
    ensures Xor(SaltedHash(P, e.salt, password), PyTake(e.passhash, |e.passhash| - icbs)) ==
              Ok(Shamir.ShareAt(Some(coefs), e.sharenumber).value.bytes)
  {
    var h := SaltedHash(P, e.salt, password);
    var share := Shamir.ShareAt(Some(coefs), e.sharenumber).value;
    SuffixLength(e.passhash, icbs);
    assert PyTake(e.passhash, |e.passhash| - icbs) == Xor(h, share.bytes).value;
    XorInvolution(h, share.bytes);
  }

  /**
   * Logins whose passwords made every entry of their accounts gather the
   * shares at the logins' share numbers, account after account.
   */
  lemma {:induction false} LoginsGathered(P: Primitives, icbs: int, coefs: seq<seq<bv8>>, accounts: Accounts,
                                          logindata: seq<(string, Bytes)>)
    requires 0 <= icbs <= 32
    requires forall j :: 0 <= j < |logindata| ==> logindata[j].0 in accounts
    requires forall j, e :: 0 <= j < |logindata| && e in accounts[logindata[j].0] ==>
               MadeFrom(P, icbs, coefs, e, logindata[j].1)
    ensures forall a :: 0 <= a < |LoginNumbers(accounts, logindata)| ==> 1 <= LoginNumbers(accounts, logindata)[a] <= 255
    ensures LoginShares(P, icbs, accounts, logindata) == Ok(Shamir.SharesAt(coefs, LoginNumbers(accounts, logindata)))
    decreases |logindata|
  {
    if logindata != [] {
      var n := |logindata| - 1;
      var init := logindata[..n];
      var u := logindata[n].0;
      LoginsGathered(P, icbs, coefs, accounts, init);
      EntriesGathered(P, icbs, coefs, accounts[u], logindata[n].1);
      Shamir.SharesAtAppend(coefs, LoginNumbers(accounts, init), ShareNumbers(accounts[u]));
    }
  }

  /** Within one account, share numbers already differ: so do the ones gathered from its first n entries. */
  lemma {:induction false} ShareNumbersDistinct(entries: seq<Entry>, n: nat)
    requires n <= |entries|
    requires forall i, j :: 0 <= i < j < |entries| && entries[i].sharenumber >= 1 ==>
               entries[i].sharenumber != entries[j].sharenumber
    requires forall e :: e in entries ==> e.sharenumber >= 0
    ensures forall a, b :: 0 <= a < b < |ShareNumbers(entries[..n])| ==>
              ShareNumbers(entries[..n])[a] != ShareNumbers(entries[..n])[b]
    decreases n
  {
    if n > 0 {
      ShareNumbersDistinct(entries, n - 1);
      var init, last := entries[..n - 1], entries[n - 1];
      assert entries[..n][..n - 1] == init;
      var prev, r := ShareNumbers(init), ShareNumbers(entries[..n]);
      assert r == if last.sharenumber == 0 then prev else prev + [last.sharenumber];
      hide *;
      forall a, b | 0 <= a < b < |r|
        ensures r[a] != r[b]
      {
        if b == |prev| {
          var d :| d in init && d.sharenumber == prev[a];
          var i :| 0 <= i < n - 1 && init[i] == d;
          assert entries[i] == d && d in entries;
        }
      }
    }
  }

  /** Entries of two different accounts carry different share numbers when no number is stored twice. */
  lemma OtherAccountNumber(accounts: Accounts, u: string, v: string, d: Entry, d': Entry)
    requires NumbersUnique(accounts) && u in accounts && v in accounts && u != v
    requires d in accounts[u] && d' in accounts[v] && d.sharenumber >= 1
    ensures d.sharenumber != d'.sharenumber
  {
    var i :| 0 <= i < |accounts[u]| && accounts[u][i] == d;
    var i' :| 0 <= i' < |accounts[v]| && accounts[v][i'] == d';
  }

  /** One account's share numbers differ when no number is stored twice. */
  lemma AccountNumbersDistinct(accounts: Accounts, u: string)
    requires NumbersUnique(accounts) && u in accounts
    requires forall e :: e in accounts[u] ==> e.sharenumber >= 0
    ensures forall a, b :: 0 <= a < b < |ShareNumbers(accounts[u])| ==>
              ShareNumbers(accounts[u])[a] != ShareNumbers(accounts[u])[b]
  {
    var entries := accounts[u];
    assert forall i, j :: 0 <= i < j < |entries| && entries[i].sharenumber >= 1 ==>
             entries[i].sharenumber != entries[j].sharenumber;
    ShareNumbersDistinct(entries, |entries|);
    assert entries[..|entries|] == entries;
  }

  /**
   * The logins of different accounts gather pairwise different share
   * numbers, when no share number is stored twice and no account holds a
   * bootstrap entry.
   */
  lemma {:induction false} LoginNumbersDistinct(accounts: Accounts, logindata: seq<(string, Bytes)>)
    requires forall j :: 0 <= j < |logindata| ==> logindata[j].0 in accounts
    requires forall j, k :: 0 <= j < k < |logindata| ==> logindata[j].0 != logindata[k].0
    requires NumbersUnique(accounts)
    requires forall j, e :: 0 <= j < |logindata| && e in accounts[logindata[j].0] ==> e.sharenumber >= 0
    ensures forall a, b :: 0 <= a < b < |LoginNumbers(accounts, logindata)| ==>
              LoginNumbers(accounts, logindata)[a] != LoginNumbers(accounts, logindata)[b]
    decreases |logindata|
  {
    if logindata != [] {
      var n := |logindata| - 1;
      var init, u := logindata[..n], logindata[n].0;
      LoginNumbersDistinct(accounts, init);
      AccountNumbersDistinct(accounts, u);
      var prev, mine := LoginNumbers(accounts, init), ShareNumbers(accounts[u]);
      assert LoginNumbers(accounts, logindata) == prev + mine;
      hide *;
      forall a, b | 0 <= a < |prev| && 0 <= b < |mine|
        ensures prev[a] != mine[b]
      {
        var j, d :| 0 <= j < n && d in accounts[init[j].0] && d.sharenumber == prev[a];
        var d' :| d' in accounts[u] && d'.sharenumber == mine[b];
        assert init[j].0 == logindata[j].0;
        OtherAccountNumber(accounts, init[j].0, u, d, d');
      }
    }
  }

  /**
   * Several accounts together unlock the store: when no share number is
   * stored twice and every entry of each logged-in account was made from
   * the password given for it, the logins gather the shares at their
   * share numbers (shielded accounts add none), those shares are genuine,
   * and once there are threshold of them the recombination gives back the
   * secret and passes the fingerprint.
   */
  lemma AccountsUnlock(P: Primitives, icbs: int, t: int, coefs: seq<seq<bv8>>, accounts: Accounts,
                       logindata: seq<(string, Bytes)>)
    requires 0 <= icbs <= 32 && t >= 1 && forall k :: 0 <= k < |coefs| ==> |coefs[k]| == t
    requires NumbersUnique(accounts)
    requires forall j :: 0 <= j < |logindata| ==> logindata[j].0 in accounts
    requires forall j, k :: 0 <= j < k < |logindata| ==> logindata[j].0 != logindata[k].0
    requires forall j, e :: 0 <= j < |logindata| && e in accounts[logindata[j].0] ==>
               MadeFrom(P, icbs, coefs, e, logindata[j].1)
    ensures forall a :: 0 <= a < |LoginNumbers(accounts, logindata)| ==> 1 <= LoginNumbers(accounts, logindata)[a] <= 255
    ensures var shares := Shamir.SharesAt(coefs, LoginNumbers(accounts, logindata));
            LoginShares(P, icbs, accounts, logindata) == Ok(shares) && Shamir.Genuine(coefs, shares) &&
            (t <= |shares| ==>
              var rec := Shamir.Recovery(t, false, shares);
              rec.Ok? && rec.value.secret == Shamir.Secrets(coefs) &&
              Fingerprint(P, t, rec.value.secret, rec.value.coefficients) == Fingerprint(P, t, Shamir.Secrets(coefs), coefs))
  {
    LoginsGathered(P, icbs, coefs, accounts, logindata);
    LoginNumbersDistinct(accounts, logindata);
    var xs := LoginNumbers(accounts, logindata);
    Shamir.SharesAtGenuine(coefs, xs);
    var shares := Shamir.SharesAt(coefs, xs);
    if t <= |shares| {
      GenuineRecoveryFingerprint(P, t, coefs, shares);
      Shamir.RecoverRoundTrip(t, coefs, shares);
    }
  }
  // ---------------------------------------------------------------------
  // The store

  class PolyPasswordHasher {
    const P: Primitives
    const threshold: int
    const icbs: int                      // isolated_check_bits
    const sharer: Shamir.ShamirSecret    // shamirsecretobj
    var accountdict: Accounts
    var bootstrap: seq<string>           // bootstrap_accounts, by user name
    var knownsecret: bool
    var shieldedkey: Option<Bytes>
    var integrity: Option<Bytes>         // secret_integrity_check
    var next: int                        // nextavailableshare

    /**
     * The sharer shares the threshold and is consistent; an unlocked store
     * has its key; every pending bootstrap name has its entry.
     */
    predicate Valid()
      reads this, sharer
    {
      sharer.Valid() && sharer.threshold == threshold &&
      (knownsecret ==> shieldedkey.Some?) &&
      Pending(accountdict, bootstrap)
    }

    /**
     * The share counter's invariant: every stored share number lies below
     * next, and no share number is stored twice.  A loaded store has the
     * first half only, since a file is not checked for repeated numbers.
     */
    predicate Counted()
      reads this
    {
      NumbersBelow(accountdict, next) && NumbersUnique(accountdict)
    }

    /**
     * A new store: a 32-byte key (`secret`, from os.urandom) shared with
     * `randomness` as the random coefficients; unlocked, next share 1,
     * and the key's fingerprint recorded.
     */
    constructor New(P: Primitives, threshold: int, icbs: int, secret: Bytes, randomness: seq<Bytes>)
      requires |secret| == SecretLength && |randomness| == SecretLength
      requires threshold >= 1 && forall k :: 0 <= k < SecretLength ==> |randomness[k]| == threshold - 1
      ensures Valid() && Counted() && fresh(sharer)
      ensures this.P == P && this.threshold == threshold && this.icbs == icbs
      ensures accountdict == map[] && bootstrap == [] && knownsecret && next == 1
      ensures shieldedkey == Some(secret) && sharer.secretdata == Some(secret)
      ensures sharer.coefficients.Some? &&
              forall k :: 0 <= k < SecretLength ==> sharer.coefficients.value[k] == [secret[k]] + randomness[k]
      ensures integrity == Some(Fingerprint(P, threshold, secret, sharer.coefficients.value))
    {
      var s := new Shamir.ShamirSecret.Seeded(threshold, secret, randomness);
      var fp := IntegrityCheck(P, threshold, secret, s.coefficients.value);
      this.P := P;
      this.threshold := threshold;
      this.icbs := icbs;
      sharer := s;
      accountdict := map[];
      bootstrap := [];
      knownsecret := true;
      shieldedkey := Some(secret);
      integrity := Some(fp);
      next := 1;
    }

    /**
     * A loaded store: locked, with an empty sharer, and next the one after
     * the largest stored share number.
     */
    constructor Load(P: Primitives, threshold: int, icbs: int, accounts: Accounts, integrity: Option<Bytes>)
      requires exists u :: u in accounts && |accounts[u]| >= 1
      ensures Valid() && fresh(sharer)
      ensures this.P == P && this.threshold == threshold && this.icbs == icbs
      ensures accountdict == accounts && bootstrap == [] && !knownsecret && shieldedkey == None
      ensures this.integrity == integrity
      ensures sharer.secretdata.None? && sharer.coefficients.None?
      ensures exists m :: IsLargest(accounts, m) && next == LoadedNext(m)
      ensures NumbersBelow(accountdict, next)
    {
      var s := new Shamir.ShamirSecret(threshold);
      var largest: Option<int> := None;
      var keys := accounts.Keys;
      while keys != {}
        invariant keys <= accounts.Keys
        invariant largest.None? ==> forall u :: u in accounts && u !in keys ==> accounts[u] == []
        invariant largest.Some? ==> forall u, i :: u in accounts && u !in keys && 0 <= i < |accounts[u]| ==>
                    accounts[u][i].sharenumber <= largest.value
        invariant largest.Some? ==>
                    exists u, i :: u in accounts && 0 <= i < |accounts[u]| && largest.value == accounts[u][i].sharenumber
        decreases keys
      {
        var username :| username in keys;
        var entries := accounts[username];
        for i := 0 to |entries|
          invariant largest.None? ==> i == 0 && forall u :: u in accounts && u !in keys ==> accounts[u] == []
          invariant largest.Some? ==> forall v, j :: v in accounts && v !in keys && 0 <= j < |accounts[v]| ==>
                      accounts[v][j].sharenumber <= largest.value
          invariant largest.Some? ==> forall j :: 0 <= j < i ==> entries[j].sharenumber <= largest.value
          invariant largest.Some? ==>
                      exists v, j :: v in accounts && 0 <= j < |accounts[v]| && largest.value == accounts[v][j].sharenumber
        {
          if largest.None? || entries[i].sharenumber > largest.value {
            largest := Some(entries[i].sharenumber);
          }
        }
        keys := keys - {username};
      }
      this.P := P;
      this.threshold := threshold;
      this.icbs := icbs;
      sharer := s;
      accountdict := accounts;
      bootstrap := [];
      knownsecret := false;
      shieldedkey := None;
      this.integrity := integrity;
      next := LoadedNext(largest.value);
    }

    /**
     * create_account.  The checks come in the source's order; a refused
     * account leaves the store as it was.  A locked store only makes
     * bootstrap entries; an unlocked one makes one shielded entry for 0
     * shares, or one share entry per share number from next on.  `salt(k)`
     * stands for the k-th os.urandom salt.
     */
    method CreateAccount(username: string, password: Bytes, shares: int, salt: nat -> Bytes) returns (r: Result<()>)
      requires Valid()
      modifies this
      ensures Valid()
      ensures knownsecret == old(knownsecret) && shieldedkey == old(shieldedkey) && integrity == old(integrity)
      ensures username in old(accountdict) ==> r == Err(UsernameExists)
      ensures username !in old(accountdict) && (shares > 255 || shares < 0) ==> r == Err(InvalidShareCount)
      ensures username !in old(accountdict) && 0 <= shares <= 255 && shares + old(next) > 255 ==>
                r == Err(ShareSpaceExhausted)
      ensures username !in old(accountdict) && 0 <= shares <= 255 && shares + old(next) <= 255 && !knownsecret && shares != 0 ==>
                r == Err(BootstrapNeedsNoShares)
      ensures username in old(accountdict) || !(0 <= shares <= 255) || shares + old(next) > 255 ||
              (!knownsecret && shares != 0) ==>
                accountdict == old(accountdict) && bootstrap == old(bootstrap) && next == old(next)
      ensures username !in old(accountdict) && shares == 0 && old(next) <= 255 && !knownsecret ==>
                r == Ok(()) && next == old(next) && bootstrap == old(bootstrap) + [username] &&
                accountdict == old(accountdict)[username := [BootstrapEntry(P, salt(0), password)]]
      ensures username !in old(accountdict) && shares == 0 && old(next) <= 255 && knownsecret ==>
                r == Ok(()) && next == old(next) && bootstrap == old(bootstrap) &&
                accountdict == old(accountdict)[username := [ShieldedEntry(P, shieldedkey.value, icbs, salt(0), password)]]
      ensures username !in old(accountdict) && 0 < shares <= 255 && shares + old(next) <= 255 && knownsecret ==>
                var issued := IssueShares(P, icbs, sharer.coefficients, password, salt, old(next), shares);
                bootstrap == old(bootstrap) &&
                accountdict == old(accountdict)[username := issued.entries] &&
                (issued.failure.None? ==> r == Ok(()) && next == old(next) + shares) &&
                (issued.failure.Some? ==> r == Err(issued.failure.value) && next == old(next))
      ensures old(NumbersBelow(accountdict, next)) && r.Ok? ==> NumbersBelow(accountdict, next)
      ensures old(Counted()) && r.Ok? ==> Counted()
      ensures old(Counted()) ==> NumbersUnique(accountdict)
    {
      hide NumbersBelow, NumbersUnique, IssueShares, IsolatedBits, Rehash, Xor, Shamir.ShareAt;
      if username in accountdict {
        return Err(UsernameExists);
      }
      if shares > 255 || shares < 0 {
        return Err(InvalidShareCount);
      }
      if shares + next > 255 {
        return Err(ShareSpaceExhausted);
      }
      if !knownsecret {
        if shares != 0 {
          return Err(BootstrapNeedsNoShares);
        }
        var h := SaltedHash(P, salt(0), password);
        if NumbersBelow(accountdict, next) {
          AddUnsharedAccount(accountdict, next, username, Entry(-1, salt(0), h, None));
        }
        accountdict := accountdict[username := [Entry(-1, salt(0), h, None)]];
        bootstrap := bootstrap + [username];
        return Ok(());
      }
      if shares == 0 {
        var h := SaltedHash(P, salt(0), password);
        var bits := IsolatedValidationBits(P, icbs, h);
        if NumbersBelow(accountdict, next) {
          AddUnsharedAccount(accountdict, next, username, Entry(0, salt(0), P.encrypt(shieldedkey.value, h) + bits, None));
        }
        accountdict := accountdict[username := [Entry(0, salt(0), P.encrypt(shieldedkey.value, h) + bits, None)]];
        return Ok(());
      }
      var issued := IssueLoop(P, icbs, sharer, password, salt, next, shares);
      if NumbersBelow(accountdict, next) {
        AddShareAccount(accountdict, next, username, issued.entries);
      }
      accountdict := accountdict[username := issued.entries];
      if issued.failure.Some? {
        return Err(issued.failure.value);
      }
      next := next + shares;
      return Ok(());
    }

    /** is_valid_login. */
    method IsValidLogin(username: string, password: Bytes) returns (r: Result<bool>)
      requires Valid()
      ensures r == Login(P, knownsecret, icbs, shieldedkey, sharer.coefficients, accountdict, username, password)
    {
      if !knownsecret && icbs == 0 {
        return Err(PartialBytesDisabled);
      }
      if username !in accountdict {
        return Err(UnknownUser);
      }
      var entries := accountdict[username];
      if entries == [] {
        return Ok(false);
      }
      var entry := entries[0];
      var h := SaltedHash(P, entry.salt, password);
      if entry.sharenumber == -1 {
        return Ok(h == entry.passhash);
      }
      if !knownsecret {
        var bits := IsolatedValidationBits(P, icbs, h);
        return Ok(bits == PyDrop(entry.passhash, |entry.passhash| - icbs));
      }
      var body := PyTake(entry.passhash, |entry.passhash| - icbs);
      var sharedata := BytearrayXor(h, body);
      if sharedata.Err? {
        return Err(sharedata.error);
      }
      if entry.sharenumber == 0 {
        return Ok(P.encrypt(shieldedkey.value, h) == body);
      }
      r := sharer.IsValidShare(Shamir.Share(entry.sharenumber, sharedata.value));
    }

    /** The guard of write_password_data: fewer share numbers than the threshold is refused. */
    method WritePasswordData() returns (r: Result<()>)
      ensures r.Err? <==> threshold >= next
      ensures r.Err? ==> r.error == TooFewShareNumbers
    {
      if threshold >= next {
        return Err(TooFewShareNumbers);
      }
      return Ok(());
    }

    /**
     * unlock_password_data.  The sharer keeps what it recovered even when
     * the fingerprint check then fails, and the store stays locked.  On
     * success the key is the recovered secret and every pending bootstrap
     * entry is converted.
     */
    method UnlockPasswordData(logindata: seq<(string, Bytes)>) returns (r: Result<()>)
      requires Valid()
      modifies this, sharer
      ensures Valid()
      ensures next == old(next) && integrity == old(integrity)
      ensures old(knownsecret) ==> r == Err(AlreadyUnlocked)
      ensures r.Err? && r.error != WrongRecombination ==>
                unchanged(this) && sharer.secretdata == old(sharer.secretdata) &&
                sharer.coefficients == old(sharer.coefficients)
      ensures !old(knownsecret) ==>
                var shares := LoginShares(P, icbs, old(accountdict), logindata);
                (shares.Err? ==> r == Err(shares.error)) &&
                (shares.Ok? ==>
                  var rec := Shamir.Recovery(threshold, old(sharer.secretdata).Some?, shares.value);
                  (rec.Err? ==> r == Err(rec.error)) &&
                  (rec.Ok? ==>
                    sharer.coefficients == Some(rec.value.coefficients) && sharer.secretdata == Some(rec.value.secret) &&
                    (integrity != Some(Fingerprint(P, threshold, rec.value.secret, rec.value.coefficients)) ==>
                      r == Err(WrongRecombination) && !knownsecret && accountdict == old(accountdict) &&
                      bootstrap == old(bootstrap) && shieldedkey == old(shieldedkey)) &&
                    (integrity == Some(Fingerprint(P, threshold, rec.value.secret, rec.value.coefficients)) ==>
                      r == Ok(()) && knownsecret && shieldedkey == Some(rec.value.secret) && bootstrap == [] &&
                      accountdict == ShieldCorrected(P, rec.value.secret, icbs, old(accountdict), old(bootstrap)))))
      ensures old(NumbersBelow(accountdict, next)) ==> NumbersBelow(accountdict, next)
      ensures old(Counted()) ==> Counted()
    {
      hide LoginShares, Shamir.Recovery, Fingerprint, ShieldCorrected, NumbersBelow, NumbersUnique;
      if knownsecret {
        return Err(AlreadyUnlocked);
      }
      var sharelist := GatherShares(logindata);
      if sharelist.Err? {
        return Err(sharelist.error);
      }
      var recovered := sharer.RecoverSecretdata(sharelist.value);
      if recovered.Err? {
        return Err(recovered.error);
      }
      var secret := sharer.secretdata.value;
      var digest := IntegrityCheck(P, threshold, secret, sharer.coefficients.value);
      if integrity != Some(digest) {
        return Err(WrongRecombination);
      }
      shieldedkey := Some(secret);
      ShieldKeepsNumbers(P, secret, icbs, accountdict, bootstrap, next);
      accountdict := ShieldLoop(P, secret, icbs, accountdict, bootstrap);
      bootstrap := [];
      knownsecret := true;
      return Ok(());
    }

    /** The share-gathering loops of unlock_password_data. */
    method GatherShares(logindata: seq<(string, Bytes)>) returns (r: Result<seq<Shamir.Share>>)
      ensures r == LoginShares(P, icbs, accountdict, logindata)
    {
      var sharelist: seq<Shamir.Share> := [];
      for n := 0 to |logindata|
        invariant LoginShares(P, icbs, accountdict, logindata[..n]) == Ok(sharelist)
      {
        LoginSharesStep(P, icbs, accountdict, logindata, n);
        hide LoginShares, EntryShares;
        var username := logindata[n].0;
        var password := logindata[n].1;
        if username !in accountdict {
          LoginSharesStops(P, icbs, accountdict, logindata, n + 1, |logindata|);
          assert logindata[..|logindata|] == logindata;
          return Err(UnknownUser);
        }
        var mine := GatherEntryShares(P, icbs, accountdict[username], password);
        if mine.Err? {
          LoginSharesStops(P, icbs, accountdict, logindata, n + 1, |logindata|);
          assert logindata[..|logindata|] == logindata;
          return Err(mine.error);
        }
        sharelist := sharelist + mine.value;
      }
      assert logindata[..|logindata|] == logindata;
      return Ok(sharelist);
    }
  }

  /** The inner loop of unlock_password_data: the shares of one login's entries. */
  method GatherEntryShares(P: Primitives, icbs: int, entries: seq<Entry>, password: Bytes) returns (r: Result<seq<Shamir.Share>>)
    ensures r == EntryShares(P, icbs, entries, password)
  {
    var mine: seq<Shamir.Share> := [];
    EntrySharesNone(P, icbs, password);
    assert entries[..0] == [];
    hide *;
    for i := 0 to |entries|
      invariant EntryShares(P, icbs, entries[..i], password) == Ok(mine)
    {
      var entry := entries[i];
      GatherStep(P, icbs, entries, password, i, mine);
      if entry.sharenumber == 0 {
        continue;
      }
      var h := SaltedHash(P, entry.salt, password);
      var data := BytearrayXor(h, PyTake(entry.passhash, |entry.passhash| - icbs));
      if data.Err? {
        return Err(data.error);
      }
      mine := mine + [Shamir.Share(entry.sharenumber, data.value)];
    }
    assert entries[..|entries|] == entries;
    return Ok(mine);
  }

  /** One entry of the gathering loop: skipped, raising, or adding its share. */
  lemma GatherStep(P: Primitives, icbs: int, entries: seq<Entry>, password: Bytes, i: nat, mine: seq<Shamir.Share>)
    requires i < |entries| && EntryShares(P, icbs, entries[..i], password) == Ok(mine)
    ensures var e := entries[i];
            var data := Xor(SaltedHash(P, e.salt, password), PyTake(e.passhash, |e.passhash| - icbs));
            && (e.sharenumber == 0 ==> EntryShares(P, icbs, entries[..i + 1], password) == Ok(mine))
            && (e.sharenumber != 0 && data.Err? ==> EntryShares(P, icbs, entries, password) == Err(data.error))
            && (e.sharenumber != 0 && data.Ok? ==>
                  EntryShares(P, icbs, entries[..i + 1], password) == Ok(mine + [Shamir.Share(e.sharenumber, data.value)]))
  {
    EntrySharesStep(P, icbs, entries, password, i);
    if EntryShares(P, icbs, entries[..i + 1], password).Err? {
      EntrySharesStops(P, icbs, entries, password, i + 1, |entries|);
      assert entries[..|entries|] == entries;
    }
  }

  /** The share loop of create_account, asking the sharer for one share per number. */
  method IssueLoop(P: Primitives, icbs: int, sharer: Shamir.ShamirSecret, password: Bytes, salt: nat -> Bytes,
                   first: int, n: nat) returns (issued: Issued)
    ensures issued == IssueShares(P, icbs, sharer.coefficients, password, salt, first, n)
  {
    hide IssueShares, Shamir.ShareAt, Xor, IsolatedBits, SaltedHash;
    IssueSharesNone(P, icbs, sharer.coefficients, password, salt, first);
    var entries: seq<Entry> := [];
    for k := 0 to n
      invariant IssueShares(P, icbs, sharer.coefficients, password, salt, first, k) == Issued(entries, None)
    {
      IssueSharesStep(P, icbs, sharer.coefficients, password, salt, first, k, entries);
      var share := sharer.ComputeShare(first + k);
      if share.Err? {
        IssueSharesStops(P, icbs, sharer.coefficients, password, salt, first, k + 1, n);
        return Issued(entries, Some(share.error));
      }
      var h := SaltedHash(P, salt(k), password);
      var masked := BytearrayXor(h, share.value.bytes);
      if masked.Err? {
        IssueSharesStops(P, icbs, sharer.coefficients, password, salt, first, k + 1, n);
        return Issued(entries, Some(masked.error));
      }
      var bits := IsolatedValidationBits(P, icbs, h);
      entries := entries + [Entry(first + k, salt(k), masked.value + bits, None)];
    }
    return Issued(entries, None);
  }

  /** The bootstrap loop of unlock_password_data, converting the corrected way. */
  method ShieldLoop(P: Primitives, key: Bytes, icbs: int, accounts: Accounts, bootstrap: seq<string>) returns (r: Accounts)
    requires Pending(accounts, bootstrap)
    ensures r == ShieldCorrected(P, key, icbs, accounts, bootstrap)
  {
    r := accounts;
    for i := 0 to |bootstrap|
      invariant r == ShieldCorrected(P, key, icbs, accounts, bootstrap[..i])
    {
      assert bootstrap[..i + 1][..i] == bootstrap[..i];
      var u := bootstrap[i];
      var h := accounts[u][0].passhash;
      var bits := IsolatedValidationBits(P, icbs, h);
      r := r[u := [accounts[u][0].(sharenumber := 0, passhash := P.encrypt(key, h) + bits)]];
    }
    assert bootstrap[..|bootstrap|] == bootstrap;
  }
}
