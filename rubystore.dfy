/**
 * PolyPassHash (polypasshash.rb), the Ruby port of the threshold password
 * store.  It differs from the Python store in the details the model keeps
 * apart: no bootstrap accounts (a locked store refuses new accounts), no
 * lower bound on the share count, a counter restored as one past the
 * largest share number (at least 1), check bytes that are the plain hash's
 * last bytes, Ruby's inclusive ranges, an XOR that only needs the second
 * operand to be long enough, and an unlock without a fingerprint check.
 *
 * The Ruby ShamirSecret (shamirsecret.rb) is not part of this model; the
 * Shamir module's model of the Python class stands in for it.
 */
module RubyStore {
  import opened Outcomes
  import opened Crypto
  import Shamir

  /** One stored entry: a share number (0 for a shielded entry), the salt and the stored hash. */
  datatype Entry = Entry(sharenumber: int, salt: Bytes, passhash: Bytes)

  type Accounts = map<string, seq<Entry>>

  // ---------------------------------------------------------------------
  // Hashing, slicing and XOR

  /** Digest::SHA256.digest(salt + password). */
  function SaltedHash(P: Primitives, salt: Bytes, password: Bytes): Digest {
    P.sha256(salt + password)
  }

  /** h[(h.size - partialbytes)..-1]: the check bytes, nil when the start is out of range. */
  function Suffix(h: Bytes, pb: int): Option<Bytes> {
    RubyRange(h, |h| - pb, -1)
  }

  /** passhash[0..(passhash.size - 1) - partialbytes]: the stored hash without its check bytes. */
  function Body(passhash: Bytes, pb: int): Bytes {
    RubyRange(passhash, 0, |passhash| - 1 - pb).value
  }

  /** For 0 <= pb <= |h| the check bytes are the last pb bytes. */
  lemma SuffixIsLast(h: Bytes, pb: int)
    requires 0 <= pb <= |h|
    ensures Suffix(h, pb) == Some(h[|h| - pb..])
  {
  }

  /** A body of one byte or more followed by pb check bytes is cut back to the body. */
  lemma BodyOfJoined(body: Bytes, suffix: Bytes)
    requires |body| >= 1
    ensures Body(body + suffix, |suffix|) == body
  {
    var s := body + suffix;
    assert s[0..|s| - 1 - |suffix| + 1] == body;
  }

  /**
   * _do_bytearray_XOR: one byte per byte of the first operand; a second
   * operand shorter than the first runs out and raises.
   */
  function RubyXor(a: Bytes, b: Bytes): (r: Result<Bytes>)
    ensures r.Ok? <==> |b| >= |a|
    ensures r.Err? ==> r.error == XorOperandTooShort
    ensures r.Ok? ==> |r.value| == |a| && forall i :: 0 <= i < |a| ==> r.value[i] == a[i] ^ b[i]
  {
    if |b| < |a| then Err(XorOperandTooShort) else Ok(seq(|a|, i requires 0 <= i < |a| => a[i] ^ b[i]))
  }

  /** XOR with the same hash twice gives back the first |a| bytes of the data. */
  lemma RubyXorRecovers(a: Bytes, b: Bytes)
    requires |b| >= |a|
    ensures RubyXor(a, RubyXor(a, b).value) == Ok(b[..|a|])
  {
    var c := RubyXor(a, b).value;
    forall i | 0 <= i < |a|
      ensures a[i] ^ c[i] == b[i]
    {
      assert c[i] == a[i] ^ b[i];
    }
    assert RubyXor(a, c).value == b[..|a|];
  }

  /** _do_bytearray_XOR with its loop. */
  method BytearrayXor(a: Bytes, b: Bytes) returns (r: Result<Bytes>)
    ensures r == RubyXor(a, b)
  {
    var result: Bytes := [];
    for i := 0 to |a|
      invariant i <= |b| && |result| == i
      invariant forall k :: 0 <= k < i ==> result[k] == a[k] ^ b[k]
    {
      if i >= |b| {
        return Err(XorOperandTooShort);
      }
      result := result + [a[i] ^ b[i]];
    }
    if |b| < |a| {
      return Err(XorOperandTooShort);
    }
    assert result == RubyXor(a, b).value;
    return Ok(result);
  }

  // ---------------------------------------------------------------------
  // Entries

  /** The entry of a 0-share account: the ciphertext of the hash and its last bytes. */
  function ShieldedEntry(P: Primitives, key: Bytes, pb: int, salt: Bytes, password: Bytes): (r: Result<Entry>)
    ensures 0 <= pb <= 32 ==> r.Ok?
    ensures r.Err? ==> r.error == MissingSuffix
  {
    var h := SaltedHash(P, salt, password);
    var suffix := Suffix(h, pb);
    if suffix.None? then Err(MissingSuffix) else Ok(Entry(0, salt, P.encrypt(key, h) + suffix.value))
  }

  /** The entries the share loop of create_account made, and why it stopped early if it did. */
  datatype Issued = Issued(entries: seq<Entry>, failure: Option<Error>)

  /**
   * The share loop for share numbers first .. first+n-1: compute the
   * share, XOR it with a fresh salted hash and append the hash's last
   * bytes.  A step that raises stops the loop with the entries made so far.
   */
  function IssueShares(P: Primitives, pb: int, coefficients: Option<seq<seq<bv8>>>,
                       password: Bytes, salt: nat -> Bytes, first: int, n: nat): (r: Issued)
    ensures |r.entries| <= n
    ensures r.failure.None? ==> |r.entries| == n
    ensures forall k :: 0 <= k < |r.entries| ==>
              r.entries[k].sharenumber == first + k && r.entries[k].salt == salt(k)
  {
    if n == 0 then Issued([], None)
    else
      var prev := IssueShares(P, pb, coefficients, password, salt, first, n - 1);
      if prev.failure.Some? then prev
      else
        var share := Shamir.ShareAt(coefficients, first + n - 1);
        if share.Err? then Issued(prev.entries, Some(share.error))
        else
          var h := SaltedHash(P, salt(n - 1), password);
          var masked := RubyXor(h, share.value.bytes);
          if masked.Err? then Issued(prev.entries, Some(masked.error))
          else
            var suffix := Suffix(h, pb);
            if suffix.None? then Issued(prev.entries, Some(MissingSuffix))
            else Issued(prev.entries + [Entry(first + n - 1, salt(n - 1), masked.value + suffix.value)], None)
  }

  lemma IssueSharesNone(P: Primitives, pb: int, coefficients: Option<seq<seq<bv8>>>,
                        password: Bytes, salt: nat -> Bytes, first: int)
    ensures IssueShares(P, pb, coefficients, password, salt, first, 0) == Issued([], None)
  {
  }

  /** One more turn of the share loop after an uninterrupted run. */
  lemma IssueSharesStep(P: Primitives, pb: int, coefficients: Option<seq<seq<bv8>>>,
                        password: Bytes, salt: nat -> Bytes, first: int, k: nat, entries: seq<Entry>)
    requires IssueShares(P, pb, coefficients, password, salt, first, k) == Issued(entries, None)
    ensures IssueShares(P, pb, coefficients, password, salt, first, k + 1) ==
              var share := Shamir.ShareAt(coefficients, first + k);
              if share.Err? then Issued(entries, Some(share.error))
              else
                var h := SaltedHash(P, salt(k), password);
                var masked := RubyXor(h, share.value.bytes);
                if masked.Err? then Issued(entries, Some(masked.error))
                else
                  var suffix := Suffix(h, pb);
                  if suffix.None? then Issued(entries, Some(MissingSuffix))
                  else Issued(entries + [Entry(first + k, salt(k), masked.value + suffix.value)], None)
  {
  }

  /** The share loop does not go on after a failure. */
  lemma IssueSharesErr(P: Primitives, pb: int, coefficients: Option<seq<seq<bv8>>>,
                       password: Bytes, salt: nat -> Bytes, first: int, n: nat)
    requires n > 0 && IssueShares(P, pb, coefficients, password, salt, first, n - 1).failure.Some?
    ensures IssueShares(P, pb, coefficients, password, salt, first, n) ==
              IssueShares(P, pb, coefficients, password, salt, first, n - 1)
  {
  }

  /** Once the share loop has stopped, later share numbers add nothing. */
  lemma {:induction false} IssueSharesStops(P: Primitives, pb: int, coefficients: Option<seq<seq<bv8>>>,
                                            password: Bytes, salt: nat -> Bytes, first: int, i: nat, n: nat)
    requires i <= n && IssueShares(P, pb, coefficients, password, salt, first, i).failure.Some?
    ensures IssueShares(P, pb, coefficients, password, salt, first, n) ==
              IssueShares(P, pb, coefficients, password, salt, first, i)
    decreases n
  {
    hide *;
    if n > i {
      IssueSharesStops(P, pb, coefficients, password, salt, first, i, n - 1);
      IssueSharesErr(P, pb, coefficients, password, salt, first, n);
    }
  }

  /**
   * With coefficients for a 32-byte secret, share numbers inside 1..255 and
   * at most 32 check bytes, the share loop never stops early.
   */
  lemma {:induction false} IssueSharesComplete(P: Primitives, pb: int, coefs: seq<seq<bv8>>,
                                               password: Bytes, salt: nat -> Bytes, first: int, n: nat)
    requires |coefs| == 32 && 0 <= pb <= 32 && 1 <= first && first + n - 1 <= 255
    ensures IssueShares(P, pb, Some(coefs), password, salt, first, n).failure.None?
    decreases n
  {
    if n > 0 {
      IssueSharesComplete(P, pb, coefs, password, salt, first, n - 1);
      var prev := IssueShares(P, pb, Some(coefs), password, salt, first, n - 1);
      IssueSharesStep(P, pb, Some(coefs), password, salt, first, n - 1, prev.entries);
      hide IssueShares;
      SuffixIsLast(SaltedHash(P, salt(n - 1), password), pb);
    }
  }

  /** What entry k of the share loop holds. */
  lemma {:induction false} IssuedEntry(P: Primitives, pb: int, coefs: seq<seq<bv8>>,
                                       password: Bytes, salt: nat -> Bytes, first: int, n: nat, k: nat)
    requires k < |IssueShares(P, pb, Some(coefs), password, salt, first, n).entries|
    ensures var share := Shamir.ShareAt(Some(coefs), first + k);
            var h := SaltedHash(P, salt(k), password);
            share.Ok? && |share.value.bytes| >= |h| && Suffix(h, pb).Some? &&
            IssueShares(P, pb, Some(coefs), password, salt, first, n).entries[k] ==
              Entry(first + k, salt(k), RubyXor(h, share.value.bytes).value + Suffix(h, pb).value)
    decreases n
  {
    hide *;
    var prev := IssueShares(P, pb, Some(coefs), password, salt, first, n - 1);
    if prev.failure.Some? {
      IssueSharesErr(P, pb, Some(coefs), password, salt, first, n);
      IssuedEntry(P, pb, coefs, password, salt, first, n - 1, k);
    } else {
      IssueSharesStep(P, pb, Some(coefs), password, salt, first, n - 1, prev.entries);
      if k < |prev.entries| {
        IssuedEntry(P, pb, coefs, password, salt, first, n - 1, k);
      }
    }
  }

  // ---------------------------------------------------------------------
  // Logins

  /** The body of is_valid_login's loop for one entry; every branch returns. */
  function CheckEntry(P: Primitives, known: bool, pb: int, key: Option<Bytes>,
                      coefficients: Option<seq<seq<bv8>>>, e: Entry, password: Bytes): Result<bool>
    requires known ==> key.Some?
  {
    var h := SaltedHash(P, e.salt, password);
    if !known then Ok(Suffix(h, pb) == RubyRange(e.passhash, |e.passhash| - pb, -1))
    else
      var sharedata := RubyXor(h, Body(e.passhash, pb));
      if sharedata.Err? then Err(sharedata.error)
      else if e.sharenumber == 0 then Ok(P.encrypt(key.value, h) == Body(e.passhash, pb))
      else Shamir.ValidShare(coefficients, Shamir.Share(e.sharenumber, sharedata.value))
  }

  /**
   * is_valid_login: a locked store without partial bytes refuses first, an
   * unknown user next; then the first entry decides.  An account without
   * entries returns its (empty, truthy) entry list.
   */
  function Login(P: Primitives, known: bool, pb: int, key: Option<Bytes>, coefficients: Option<seq<seq<bv8>>>,
                 accounts: Accounts, username: string, password: Bytes): (r: Result<bool>)
    requires known ==> key.Some?
    ensures !known && pb == 0 ==> r == Err(PartialBytesDisabled)
    ensures (known || pb != 0) && username !in accounts ==> r == Err(UnknownUser)
    ensures (known || pb != 0) && username in accounts && accounts[username] == [] ==> r == Ok(true)
    ensures (known || pb != 0) && username in accounts && accounts[username] != [] ==>
              r == CheckEntry(P, known, pb, key, coefficients, accounts[username][0], password)
  {
    if !known && pb == 0 then Err(PartialBytesDisabled)
    else if username !in accounts then Err(UnknownUser)
    else if accounts[username] == [] then Ok(true)
    else CheckEntry(P, known, pb, key, coefficients, accounts[username][0], password)
  }

  /**
   * A shielded entry accepts its own password once unlocked, when the
   * ciphertext is at least as long as the hash (AES-CBC pads 32 bytes to
   * 48).
   */
  lemma ShieldedEntryLogsIn(P: Primitives, pb: int, key: Bytes, coefficients: Option<seq<seq<bv8>>>,
                            salt: Bytes, password: Bytes)
    requires 0 <= pb <= 32 && |P.encrypt(key, SaltedHash(P, salt, password))| >= 32
    ensures CheckEntry(P, true, pb, Some(key), coefficients, ShieldedEntry(P, key, pb, salt, password).value, password) == Ok(true)
  {
    var h := SaltedHash(P, salt, password);
    SuffixIsLast(h, pb);
    BodyOfJoined(P.encrypt(key, h), h[32 - pb..]);
  }

  /** A share entry accepts its own password once unlocked. */
  lemma ShareEntryLogsIn(P: Primitives, pb: int, key: Bytes, coefs: seq<seq<bv8>>,
                         password: Bytes, salt: nat -> Bytes, first: int, n: nat, k: nat)
    requires 0 <= pb <= 32 && |coefs| == 32
    requires k < |IssueShares(P, pb, Some(coefs), password, salt, first, n).entries|
    ensures CheckEntry(P, true, pb, Some(key), Some(coefs),
                       IssueShares(P, pb, Some(coefs), password, salt, first, n).entries[k], password) == Ok(true)
  {
    IssuedEntry(P, pb, coefs, password, salt, first, n, k);
    var h := SaltedHash(P, salt(k), password);
    var share := Shamir.ShareAt(Some(coefs), first + k).value;
    var masked := RubyXor(h, share.bytes).value;
    SuffixIsLast(h, pb);
    BodyOfJoined(masked, h[32 - pb..]);
    RubyXorRecovers(h, share.bytes);
    assert share.bytes[..|h|] == share.bytes;
  }

  /**
   * While locked, an entry that ends in the last pb bytes of its own
   * salted hash accepts its password by those bytes alone.
   */
  lemma LockedEntryLogsIn(P: Primitives, pb: int, coefficients: Option<seq<seq<bv8>>>,
                          e: Entry, body: Bytes, password: Bytes)
    requires 0 <= pb <= 32
    requires e.passhash == body + SaltedHash(P, e.salt, password)[32 - pb..]
    ensures CheckEntry(P, false, pb, None, coefficients, e, password) == Ok(true)
  {
    var h := SaltedHash(P, e.salt, password);
    SuffixIsLast(h, pb);
    SuffixIsLast(e.passhash, pb);
    assert e.passhash[|e.passhash| - pb..] == h[32 - pb..];
  }


  /**
   * Once unlocked, a shielded entry refuses a password whose salted hash
   * differs, when the cipher under the key is one-to-one: the answer is
   * False, or the XOR raises when the ciphertext is shorter than the hash.
   */
  lemma ShieldedEntryRejects(P: Primitives, pb: int, key: Bytes, coefficients: Option<seq<seq<bv8>>>,
                             salt: Bytes, password: Bytes, other: Bytes)
    requires 0 <= pb <= 32
    requires forall a, b :: P.encrypt(key, a) == P.encrypt(key, b) ==> a == b
    requires SaltedHash(P, salt, other) != SaltedHash(P, salt, password)
    ensures var c := P.encrypt(key, SaltedHash(P, salt, password));
            var r := CheckEntry(P, true, pb, Some(key), coefficients, ShieldedEntry(P, key, pb, salt, password).value, other);
            (|c| >= 32 ==> r == Ok(false)) && (1 <= |c| < 32 ==> r == Err(XorOperandTooShort))
  {
    var h := SaltedHash(P, salt, password);
    SuffixIsLast(h, pb);
    if |P.encrypt(key, h)| >= 1 {
      BodyOfJoined(P.encrypt(key, h), h[32 - pb..]);
    }
  }

  /** Unmasking with a different hash does not give back the masked data. */
  lemma RubyXorOtherMask(a: Bytes, a': Bytes, b: Bytes)
    requires |a| == |a'| == |b| && a' != a
    ensures RubyXor(a', RubyXor(a, b).value) != Ok(b)
  {
    var i :| 0 <= i < |a| && a'[i] != a[i];
    RubyXorOtherMaskAt(a, a', b, i);
  }

  /** At a byte where the two hashes differ, the unmasked byte differs from the data. */
  lemma RubyXorOtherMaskAt(a: Bytes, a': Bytes, b: Bytes, i: int)
    requires |a| == |a'| == |b| && 0 <= i < |a| && a'[i] != a[i]
    ensures RubyXor(a', RubyXor(a, b).value).value[i] != b[i]
  {
    ByteXorCancel(a[i], a'[i], b[i]);
  }

  /**
   * Once unlocked, a share entry refuses a password whose salted hash
   * differs: XOR with that hash gives bytes other than the share, and the
   * sharer answers False.
   */
  lemma ShareEntryRejects(P: Primitives, pb: int, key: Bytes, coefs: seq<seq<bv8>>,
                          password: Bytes, other: Bytes, salt: nat -> Bytes, first: int, n: nat, k: nat)
    requires 0 <= pb <= 32 && |coefs| == 32
    requires k < |IssueShares(P, pb, Some(coefs), password, salt, first, n).entries|
    requires SaltedHash(P, salt(k), other) != SaltedHash(P, salt(k), password)
    ensures CheckEntry(P, true, pb, Some(key), Some(coefs),
                       IssueShares(P, pb, Some(coefs), password, salt, first, n).entries[k], other) == Ok(false)
  {
    IssuedEntry(P, pb, coefs, password, salt, first, n, k);
    var e := IssueShares(P, pb, Some(coefs), password, salt, first, n).entries[k];
    var h := SaltedHash(P, salt(k), password);
    var h' := SaltedHash(P, salt(k), other);
    var share := Shamir.ShareAt(Some(coefs), first + k).value;
    var masked := RubyXor(h, share.bytes).value;
    SuffixIsLast(h, pb);
    BodyOfJoined(masked, h[32 - pb..]);
    RubyXorOtherMask(h, h', share.bytes);
    var d := RubyXor(h', masked).value;
    assert Shamir.Share(e.sharenumber, d) != share;
  }

  /**
   * While locked, an entry refuses a password whose last pb hash bytes
   * differ from the ones it ends in.
   */
  lemma LockedEntryRejects(P: Primitives, pb: int, coefficients: Option<seq<seq<bv8>>>,
                           e: Entry, body: Bytes, password: Bytes, other: Bytes)
    requires 0 <= pb <= 32
    requires e.passhash == body + SaltedHash(P, e.salt, password)[32 - pb..]
    requires SaltedHash(P, e.salt, other)[32 - pb..] != SaltedHash(P, e.salt, password)[32 - pb..]
    ensures CheckEntry(P, false, pb, None, coefficients, e, other) == Ok(false)
  {
    var h := SaltedHash(P, e.salt, password);
    SuffixIsLast(SaltedHash(P, e.salt, other), pb);
    SuffixIsLast(e.passhash, pb);
    assert e.passhash[|e.passhash| - pb..] == h[32 - pb..];
  }
  // ---------------------------------------------------------------------
  // Gathering shares for unlock

  /** The shares one login contributes: every entry except shielded ones. */
  function EntryShares(P: Primitives, pb: int, entries: seq<Entry>, password: Bytes): (r: Result<seq<Shamir.Share>>)
    ensures r.Err? ==> r.error == XorOperandTooShort
    ensures r.Ok? ==> |r.value| <= |entries|
    decreases |entries|
  {
    if entries == [] then Ok([])
    else
      var prev := EntryShares(P, pb, entries[..|entries| - 1], password);
      var e := entries[|entries| - 1];
      if prev.Err? || e.sharenumber == 0 then prev
      else
        var data := RubyXor(SaltedHash(P, e.salt, password), Body(e.passhash, pb));
        if data.Err? then Err(data.error) else Ok(prev.value + [Shamir.Share(e.sharenumber, data.value)])
  }

  /** The shares of all logins, in order; an unknown user raises. */
  function LoginShares(P: Primitives, pb: int, accounts: Accounts, logindata: seq<(string, Bytes)>): (r: Result<seq<Shamir.Share>>)
    ensures r.Err? ==> r.error == UnknownUser || r.error == XorOperandTooShort
    decreases |logindata|
  {
    if logindata == [] then Ok([])
    else
      var prev := LoginShares(P, pb, accounts, logindata[..|logindata| - 1]);
      var login := logindata[|logindata| - 1];
      if prev.Err? then prev
      else if login.0 !in accounts then Err(UnknownUser)
      else
        var mine := EntryShares(P, pb, accounts[login.0], login.1);
        if mine.Err? then Err(mine.error) else Ok(prev.value + mine.value)
  }

  /** One more login gathered. */
  lemma LoginSharesStep(P: Primitives, pb: int, accounts: Accounts, logindata: seq<(string, Bytes)>, n: nat)
    requires n < |logindata|
    ensures LoginShares(P, pb, accounts, logindata[..n + 1]) ==
              var prev := LoginShares(P, pb, accounts, logindata[..n]);
              if prev.Err? then prev
              else if logindata[n].0 !in accounts then Err(UnknownUser)
              else
                var mine := EntryShares(P, pb, accounts[logindata[n].0], logindata[n].1);
                if mine.Err? then Err(mine.error) else Ok(prev.value + mine.value)
  {
    assert logindata[..n + 1][..n] == logindata[..n];
  }

  /** One more entry gathered. */
  lemma EntrySharesStep(P: Primitives, pb: int, entries: seq<Entry>, password: Bytes, i: nat)
    requires i < |entries|
    ensures EntryShares(P, pb, entries[..i + 1], password) ==
              var prev := EntryShares(P, pb, entries[..i], password);
              var e := entries[i];
              if prev.Err? || e.sharenumber == 0 then prev
              else
                var data := RubyXor(SaltedHash(P, e.salt, password), Body(e.passhash, pb));
                if data.Err? then Err(data.error) else Ok(prev.value + [Shamir.Share(e.sharenumber, data.value)])
  {
    assert entries[..i + 1][..i] == entries[..i];
  }

  /** Once gathering has raised, later logins do not matter. */
  lemma {:induction false} LoginSharesStops(P: Primitives, pb: int, accounts: Accounts,
                                            logindata: seq<(string, Bytes)>, i: nat, n: nat)
    requires i <= n <= |logindata| && LoginShares(P, pb, accounts, logindata[..i]).Err?
    ensures LoginShares(P, pb, accounts, logindata[..n]) == LoginShares(P, pb, accounts, logindata[..i])
    decreases n
  {
    hide *;
    if n > i {
      LoginSharesStops(P, pb, accounts, logindata, i, n - 1);
      LoginSharesStep(P, pb, accounts, logindata, n - 1);
    }
  }

  /** Once an entry has raised, later entries do not matter. */
  lemma {:induction false} EntrySharesStops(P: Primitives, pb: int, entries: seq<Entry>, password: Bytes, i: nat, n: nat)
    requires i <= n <= |entries| && EntryShares(P, pb, entries[..i], password).Err?
    ensures EntryShares(P, pb, entries[..n], password) == EntryShares(P, pb, entries[..i], password)
    decreases n
  {
    hide *;
    if n > i {
      EntrySharesStops(P, pb, entries, password, i, n - 1);
      EntrySharesStep(P, pb, entries, password, n - 1);
    }
  }


  /** The share numbers a login gathers from an account's entries: all but the shielded ones (0). */
  function ShareNumbers(entries: seq<Entry>): (r: seq<int>)
    ensures |r| <= |entries|
    ensures forall a :: 0 <= a < |r| ==> r[a] != 0 && exists e :: e in entries && e.sharenumber == r[a]
    decreases |entries|
  {
    if entries == [] then []
    else
      var init := entries[..|entries| - 1];
      var e := entries[|entries| - 1];
      assert forall d :: d in init ==> d in entries;
      if e.sharenumber == 0 then ShareNumbers(init) else ShareNumbers(init) + [e.sharenumber]
  }

  /**
   * An entry the store made from `password` and the sharer's coefficients:
   * a shielded entry, or a share entry whose stored hash is the share at
   * its number masked with the salted hash, followed by the hash's last
   * pb bytes.
   */
  predicate MadeFrom(P: Primitives, pb: int, coefs: seq<seq<bv8>>, e: Entry, password: Bytes) {
    e.sharenumber == 0 ||
    (1 <= e.sharenumber <= 255 &&
     var h := SaltedHash(P, e.salt, password);
     var share := Shamir.ShareAt(Some(coefs), e.sharenumber).value;
     |share.bytes| == |h| && Suffix(h, pb).Some? &&
     e.passhash == RubyXor(h, share.bytes).value + Suffix(h, pb).value)
  }

  /** Every entry of the share loop is made from its password. */
  lemma IssuedMadeFrom(P: Primitives, pb: int, coefs: seq<seq<bv8>>, password: Bytes, salt: nat -> Bytes,
                       first: int, n: nat)
    requires |coefs| == 32
    ensures forall e :: e in IssueShares(P, pb, Some(coefs), password, salt, first, n).entries ==>
              MadeFrom(P, pb, coefs, e, password)
  {
    var entries := IssueShares(P, pb, Some(coefs), password, salt, first, n).entries;
    hide IssueShares;
    forall e | e in entries
      ensures MadeFrom(P, pb, coefs, e, password)
    {
      var k :| 0 <= k < |entries| && entries[k] == e;
      IssuedEntry(P, pb, coefs, password, salt, first, n, k);
    }
  }

  /** Without shielded entries, every entry's number is gathered, in order. */
  lemma {:induction false} NumbersOfShareEntries(entries: seq<Entry>)
    requires forall i :: 0 <= i < |entries| ==> entries[i].sharenumber != 0
    ensures ShareNumbers(entries) == seq(|entries|, i requires 0 <= i < |entries| => entries[i].sharenumber)
    decreases |entries|
  {
    if entries != [] {
      NumbersOfShareEntries(entries[..|entries| - 1]);
    }
  }

  /** The entries of a completed share loop are numbered first, first+1, ... */
  lemma IssuedNumbers(P: Primitives, pb: int, coefs: seq<seq<bv8>>, password: Bytes, salt: nat -> Bytes,
                      first: int, n: nat)
    requires 0 <= pb <= 32 && |coefs| == 32 && 1 <= first && first + n - 1 <= 255
    ensures ShareNumbers(IssueShares(P, pb, Some(coefs), password, salt, first, n).entries) == Shamir.Consecutive(first, n)
  {
    var entries := IssueShares(P, pb, Some(coefs), password, salt, first, n).entries;
    hide *;
    IssueSharesComplete(P, pb, coefs, password, salt, first, n);
    NumbersOfShareEntries(entries);
  }

  /** A share entry made from a password gives back its share when logged into with it. */
  lemma GatheredMadeEntry(P: Primitives, pb: int, coefs: seq<seq<bv8>>, e: Entry, password: Bytes)
    requires 0 <= pb <= 32 && e.sharenumber != 0 && MadeFrom(P, pb, coefs, e, password)
    ensures RubyXor(SaltedHash(P, e.salt, password), Body(e.passhash, pb)) ==
              Ok(Shamir.ShareAt(Some(coefs), e.sharenumber).value.bytes)
  {
    var h := SaltedHash(P, e.salt, password);
    var share := Shamir.ShareAt(Some(coefs), e.sharenumber).value;
    SuffixIsLast(h, pb);
    var suffix := Suffix(h, pb).value;
    BodyOfJoined(RubyXor(h, share.bytes).value, suffix);
    RubyXorRecovers(h, share.bytes);
    assert share.bytes[..|h|] == share.bytes;
  }

  /**
   * Logging in with the password every entry of an account was made from
   * gathers the shares at the account's share numbers.
   */
  lemma {:induction false} EntriesGathered(P: Primitives, pb: int, coefs: seq<seq<bv8>>, entries: seq<Entry>,
                                           password: Bytes)
    requires 0 <= pb <= 32
    requires forall e :: e in entries ==> MadeFrom(P, pb, coefs, e, password)
    ensures forall a :: 0 <= a < |ShareNumbers(entries)| ==> 1 <= ShareNumbers(entries)[a] <= 255
    ensures EntryShares(P, pb, entries, password) == Ok(Shamir.SharesAt(coefs, ShareNumbers(entries)))
    decreases |entries|
  {
    if entries != [] {
      var n := |entries| - 1;
      var init, e := entries[..n], entries[n];
      assert e in entries && forall d :: d in init ==> d in entries;
      assert MadeFrom(P, pb, coefs, e, password);
      EntriesGathered(P, pb, coefs, init, password);
      EntrySharesStep(P, pb, entries, password, n);
      assert entries[..n + 1] == entries;
      assert ShareNumbers(entries) == if e.sharenumber == 0 then ShareNumbers(init) else ShareNumbers(init) + [e.sharenumber];
      if e.sharenumber != 0 {
        GatheredMadeEntry(P, pb, coefs, e, password);
        var share := Shamir.ShareAt(Some(coefs), e.sharenumber).value;
        Shamir.SharesAtAppend(coefs, ShareNumbers(init), [e.sharenumber]);
        hide *;
        assert Shamir.SharesAt(coefs, [e.sharenumber]) == [share];
        assert Shamir.Share(e.sharenumber, share.bytes) == share;
      }
    }
  }

  /**
   * Logging in with the password of an account made with n shares gives
   * back exactly the shares it was made from.
   */
  lemma IssuedSharesGathered(P: Primitives, pb: int, coefs: seq<seq<bv8>>, password: Bytes, salt: nat -> Bytes,
                             first: int, n: nat)
    requires 0 <= pb <= 32 && |coefs| == 32 && 1 <= first && first + n - 1 <= 255
    ensures EntryShares(P, pb, IssueShares(P, pb, Some(coefs), password, salt, first, n).entries, password) ==
              Ok(Shamir.SharesAt(coefs, Shamir.Consecutive(first, n)))
  {
    IssuedMadeFrom(P, pb, coefs, password, salt, first, n);
    EntriesGathered(P, pb, coefs, IssueShares(P, pb, Some(coefs), password, salt, first, n).entries, password);
    IssuedNumbers(P, pb, coefs, password, salt, first, n);
  }

  /**
   * An account holding at least threshold shares unlocks the store on its
   * own: its login gathers its shares, and the recombination gives back
   * the shared secret.
   */
  lemma AccountUnlocks(P: Primitives, pb: int, t: int, coefs: seq<seq<bv8>>, accounts: Accounts,
                       username: string, password: Bytes, salt: nat -> Bytes, first: int, n: nat)
    requires 0 <= pb <= 32 && |coefs| == 32 && 1 <= first && first + n - 1 <= 255
    requires 1 <= t <= n && forall k :: 0 <= k < |coefs| ==> |coefs[k]| == t
    requires username in accounts && accounts[username] == IssueShares(P, pb, Some(coefs), password, salt, first, n).entries
    ensures LoginShares(P, pb, accounts, [(username, password)]) == Ok(Shamir.SharesAt(coefs, Shamir.Consecutive(first, n)))
    ensures Shamir.Recovery(t, false, Shamir.SharesAt(coefs, Shamir.Consecutive(first, n))) ==
              Ok(Shamir.Recovered(Shamir.Padded(coefs, n), Shamir.Secrets(coefs)))
  {
    var logins := [(username, password)];
    assert LoginShares(P, pb, accounts, logins[..0]) == Ok([]) by {
      assert logins[..0] == [];
    }
    LoginSharesStep(P, pb, accounts, logins, 0);
    assert logins[..1] == logins;
    hide *;
    IssuedSharesGathered(P, pb, coefs, password, salt, first, n);
    assert logins[0].0 == username && logins[0].1 == password;
    var xs := Shamir.Consecutive(first, n);
    assert [] + Shamir.SharesAt(coefs, xs) == Shamir.SharesAt(coefs, xs);
    Shamir.SharesAtGenuine(coefs, xs);
    Shamir.RecoverRoundTrip(t, coefs, Shamir.SharesAt(coefs, xs));
  }
  // ---------------------------------------------------------------------
  // The store

  /** m is one past the largest share number stored, counting from at least 1. */
  predicate RestoredCounter(accounts: Accounts, next: int) {
    next >= 2 &&
    (forall u, i :: u in accounts && 0 <= i < |accounts[u]| ==> accounts[u][i].sharenumber < next) &&
    (next == 2 || exists u, i :: u in accounts && 0 <= i < |accounts[u]| && accounts[u][i].sharenumber == next - 1)
  }

  class PolyPassHash {
    const P: Primitives
    const threshold: int
    const pb: int                         // partialbytes
    const sharer: Shamir.ShamirSecret     // shamirsecretobj
    var accountdict: Accounts
    var knownsecret: bool
    var key: Option<Bytes>                // thresholdlesskey
    var next: int                         // nextavailableshare

    /** The sharer shares the threshold and is consistent; an unlocked store has its key. */
    predicate Valid()
      reads this, sharer
    {
      sharer.Valid() && sharer.threshold == threshold && (knownsecret ==> key.Some?)
    }

    /** A new store: a random 32-byte key shared with `randomness`; unlocked, next share 1. */
    constructor New(P: Primitives, threshold: int, pb: int, secret: Bytes, randomness: seq<Bytes>)
      requires |secret| == 32 && |randomness| == 32
      requires threshold >= 1 && forall k :: 0 <= k < 32 ==> |randomness[k]| == threshold - 1
      ensures Valid() && fresh(sharer)
      ensures this.P == P && this.threshold == threshold && this.pb == pb
      ensures accountdict == map[] && knownsecret && key == Some(secret) && next == 1
      ensures sharer.secretdata == Some(secret)
    {
      var s := new Shamir.ShamirSecret.Seeded(threshold, secret, randomness);
      this.P := P;
      this.threshold := threshold;
      this.pb := pb;
      sharer := s;
      accountdict := map[];
      knownsecret := true;
      key := Some(secret);
      next := 1;
    }

    /** A loaded store: locked, an empty sharer, next one past the largest share number (at least 1). */
    constructor Load(P: Primitives, threshold: int, pb: int, accounts: Accounts)
      ensures Valid() && fresh(sharer)
      ensures this.P == P && this.threshold == threshold && this.pb == pb
      ensures accountdict == accounts && !knownsecret && key == None
      ensures sharer.secretdata.None? && sharer.coefficients.None?
      ensures RestoredCounter(accounts, next)
    {
      var s := new Shamir.ShamirSecret(threshold);
      var largest := 1;
      var keys := accounts.Keys;
      while keys != {}
        invariant keys <= accounts.Keys && largest >= 1
        invariant forall u, i :: u in accounts && u !in keys && 0 <= i < |accounts[u]| ==>
                    accounts[u][i].sharenumber <= largest
        invariant largest == 1 ||
                    exists u, i :: u in accounts && 0 <= i < |accounts[u]| && accounts[u][i].sharenumber == largest
        decreases keys
      {
        var username :| username in keys;
        var entries := accounts[username];
        for i := 0 to |entries|
          invariant largest >= 1
          invariant forall v, j :: v in accounts && v !in keys && 0 <= j < |accounts[v]| ==>
                      accounts[v][j].sharenumber <= largest
          invariant forall j :: 0 <= j < i ==> entries[j].sharenumber <= largest
          invariant largest == 1 ||
                      exists v, j :: v in accounts && 0 <= j < |accounts[v]| && accounts[v][j].sharenumber == largest
        {
          if entries[i].sharenumber > largest {
            largest := entries[i].sharenumber;
          }
        }
        keys := keys - {username};
      }
      this.P := P;
      this.threshold := threshold;
      this.pb := pb;
      sharer := s;
      accountdict := accounts;
      knownsecret := false;
      key := None;
      next := largest + 1;
    }

    /**
     * create_account.  A locked store, an existing name or too few share
     * numbers left refuse the account and change nothing.  A negative
     * share count is not refused: the account gets no entries and the
     * counter goes back.  `salt(k)` stands for the k-th random salt.
     */
    method CreateAccount(username: string, password: Bytes, shares: int, salt: nat -> Bytes) returns (r: Result<()>)
      requires Valid()
      modifies this
      ensures Valid() && knownsecret == old(knownsecret) && key == old(key)
      ensures !knownsecret ==> r == Err(StoreLocked)
      ensures knownsecret && username in old(accountdict) ==> r == Err(UsernameExists)
      ensures knownsecret && username !in old(accountdict) && shares + old(next) > 255 ==> r == Err(ShareSpaceExhausted)
      ensures !knownsecret || username in old(accountdict) || shares + old(next) > 255 ==>
                accountdict == old(accountdict) && next == old(next)
      ensures knownsecret && username !in old(accountdict) && shares + old(next) <= 255 && shares == 0 ==>
                var e := ShieldedEntry(P, key.value, pb, salt(0), password);
                next == old(next) &&
                (e.Ok? ==> r == Ok(()) && accountdict == old(accountdict)[username := [e.value]]) &&
                (e.Err? ==> r == Err(e.error) && accountdict == old(accountdict)[username := []])
      ensures knownsecret && username !in old(accountdict) && shares + old(next) <= 255 && shares != 0 ==>
                var issued := IssueShares(P, pb, sharer.coefficients, password, salt, old(next), if shares < 0 then 0 else shares);
                accountdict == old(accountdict)[username := issued.entries] &&
                (issued.failure.None? ==> r == Ok(()) && next == old(next) + shares) &&
                (issued.failure.Some? ==> r == Err(issued.failure.value) && next == old(next))
    {
      if !knownsecret {
        return Err(StoreLocked);
      }
      if username in accountdict {
        return Err(UsernameExists);
      }
      if shares + next > 255 {
        return Err(ShareSpaceExhausted);
      }
      if shares == 0 {
        var h := SaltedHash(P, salt(0), password);
        var suffix := Suffix(h, pb);
        if suffix.None? {
          accountdict := accountdict[username := []];
          return Err(MissingSuffix);
        }
        accountdict := accountdict[username := [Entry(0, salt(0), P.encrypt(key.value, h) + suffix.value)]];
        return Ok(());
      }
      var issued := IssueLoop(P, pb, sharer, password, salt, next, if shares < 0 then 0 else shares);
      accountdict := accountdict[username := issued.entries];
      if issued.failure.Some? {
        return Err(issued.failure.value);
      }
      next := next + shares;
      return Ok(());
    }

    /** is_valid_login. */
    method IsValidLogin(username: string, password: Bytes) returns (r: Result<bool>)
      requires Valid()
      ensures r == Login(P, knownsecret, pb, key, sharer.coefficients, accountdict, username, password)
    {
      if !knownsecret && pb == 0 {
        return Err(PartialBytesDisabled);
      }
      if username !in accountdict {
        return Err(UnknownUser);
      }
      var entries := accountdict[username];
      if entries == [] {
        return Ok(true);
      }
      var entry := entries[0];
      var h := SaltedHash(P, entry.salt, password);
      if !knownsecret {
        return Ok(Suffix(h, pb) == RubyRange(entry.passhash, |entry.passhash| - pb, -1));
      }
      var body := Body(entry.passhash, pb);
      var sharedata := BytearrayXor(h, body);
      if sharedata.Err? {
        return Err(sharedata.error);
      }
      if entry.sharenumber == 0 {
        return Ok(P.encrypt(key.value, h) == body);
      }
      r := sharer.IsValidShare(Shamir.Share(entry.sharenumber, sharedata.value));
    }

    /** The guard of write_password_data: fewer share numbers than the threshold is refused. */
    method WritePasswordData() returns (r: Result<()>)
      ensures r.Err? <==> threshold >= next
      ensures r.Err? ==> r.error == TooFewShareNumbers
    {
      if threshold >= next {
        return Err(TooFewShareNumbers);
      }
      return Ok(());
    }

    /**
     * unlock_password_data: gather one share per non-shielded entry of
     * every login and recombine.  Whatever the sharer recombines becomes
     * the key; nothing checks it.
     */
    method UnlockPasswordData(logindata: seq<(string, Bytes)>) returns (r: Result<()>)
      requires Valid()
      modifies this, sharer
      ensures Valid() && next == old(next) && accountdict == old(accountdict)
      ensures old(knownsecret) ==> r == Err(AlreadyUnlocked)
      ensures r.Err? ==>
                knownsecret == old(knownsecret) && key == old(key) &&
                sharer.secretdata == old(sharer.secretdata) && sharer.coefficients == old(sharer.coefficients)
      ensures !old(knownsecret) ==>
                var shares := LoginShares(P, pb, accountdict, logindata);
                (shares.Err? ==> r == Err(shares.error)) &&
                (shares.Ok? ==>
                  var rec := Shamir.Recovery(threshold, old(sharer.secretdata).Some?, shares.value);
                  (rec.Err? ==> r == Err(rec.error)) &&
                  (rec.Ok? ==>
                    r == Ok(()) && knownsecret && key == Some(rec.value.secret) &&
                    sharer.coefficients == Some(rec.value.coefficients) && sharer.secretdata == Some(rec.value.secret)))
    {
      hide LoginShares, Shamir.Recovery;
      if knownsecret {
        return Err(AlreadyUnlocked);
      }
      var sharelist := GatherShares(logindata);
      if sharelist.Err? {
        return Err(sharelist.error);
      }
      var recovered := sharer.RecoverSecretdata(sharelist.value);
      if recovered.Err? {
        return Err(recovered.error);
      }
      key := sharer.secretdata;
      knownsecret := true;
      return Ok(());
    }

    /** The share-gathering loops of unlock_password_data. */
    method GatherShares(logindata: seq<(string, Bytes)>) returns (r: Result<seq<Shamir.Share>>)
      ensures r == LoginShares(P, pb, accountdict, logindata)
    {
      var sharelist: seq<Shamir.Share> := [];
      for n := 0 to |logindata|
        invariant LoginShares(P, pb, accountdict, logindata[..n]) == Ok(sharelist)
      {
        LoginSharesStep(P, pb, accountdict, logindata, n);
        hide LoginShares, EntryShares;
        var username := logindata[n].0;
        var password := logindata[n].1;
        if username !in accountdict {
          LoginSharesStops(P, pb, accountdict, logindata, n + 1, |logindata|);
          assert logindata[..|logindata|] == logindata;
          return Err(UnknownUser);
        }
        var mine := GatherEntryShares(P, pb, accountdict[username], password);
        if mine.Err? {
          LoginSharesStops(P, pb, accountdict, logindata, n + 1, |logindata|);
          assert logindata[..|logindata|] == logindata;
          return Err(mine.error);
        }
        sharelist := sharelist + mine.value;
      }
      assert logindata[..|logindata|] == logindata;
      return Ok(sharelist);
    }
  }

  /** The inner loop of the login: the shares one account's entries yield for a password. */
  method GatherEntryShares(P: Primitives, pb: int, entries: seq<Entry>, password: Bytes) returns (r: Result<seq<Shamir.Share>>)
    ensures r == EntryShares(P, pb, entries, password)
  {
    var mine: seq<Shamir.Share> := [];
    for i := 0 to |entries|
      invariant EntryShares(P, pb, entries[..i], password) == Ok(mine)
    {
      EntrySharesStep(P, pb, entries, password, i);
      hide *;
      var entry := entries[i];
      if entry.sharenumber == 0 {
        continue;
      }
      var h := SaltedHash(P, entry.salt, password);
      var data := BytearrayXor(h, Body(entry.passhash, pb));
      if data.Err? {
        EntrySharesStops(P, pb, entries, password, i + 1, |entries|);
        assert entries[..|entries|] == entries;
        return Err(data.error);
      }
      mine := mine + [Shamir.Share(entry.sharenumber, data.value)];
    }
    assert entries[..|entries|] == entries;
    return Ok(mine);
  }

  /** The share loop of create_account, asking the sharer for one share per number. */
  method IssueLoop(P: Primitives, pb: int, sharer: Shamir.ShamirSecret, password: Bytes, salt: nat -> Bytes,
                   first: int, n: nat) returns (issued: Issued)
    ensures issued == IssueShares(P, pb, sharer.coefficients, password, salt, first, n)
  {
    hide IssueShares, Shamir.ShareAt, RubyXor, Suffix, SaltedHash;
    IssueSharesNone(P, pb, sharer.coefficients, password, salt, first);
    var entries: seq<Entry> := [];
    for k := 0 to n
      invariant IssueShares(P, pb, sharer.coefficients, password, salt, first, k) == Issued(entries, None)
    {
      IssueSharesStep(P, pb, sharer.coefficients, password, salt, first, k, entries);
      var share := sharer.ComputeShare(first + k);
      if share.Err? {
        IssueSharesStops(P, pb, sharer.coefficients, password, salt, first, k + 1, n);
        return Issued(entries, Some(share.error));
      }
      var h := SaltedHash(P, salt(k), password);
      var masked := BytearrayXor(h, share.value.bytes);
      if masked.Err? {
        IssueSharesStops(P, pb, sharer.coefficients, password, salt, first, k + 1, n);
        return Issued(entries, Some(masked.error));
      }
      var suffix := Suffix(h, pb);
      if suffix.None? {
        IssueSharesStops(P, pb, sharer.coefficients, password, salt, first, k + 1, n);
        return Issued(entries, Some(MissingSuffix));
      }
      entries := entries + [Entry(first + k, salt(k), masked.value + suffix.value)];
    }
    return Issued(entries, None);
  }
}
