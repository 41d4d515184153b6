# PolyPasswordHasher in Dafny

PolyPasswordHasher is a password store. It shares one 32-byte secret among the
password entries of its accounts, using Shamir secret sharing over GF(2^8).

- An account with `n` shares stores, for each of its share numbers, the salted
  password hash XORed with that share.
- A 0-share account stores the salted hash encrypted under the secret.
- A store read back from disk is locked. Logins then rely on a few "isolated
  check" bytes that follow each stored hash.
- Once logins holding at least the threshold number of shares are presented,
  the store recombines the secret and unlocks.
- The repository also ships a small C extension, the block XOR datastore, with
  its Python wrapper. It keeps up to sixteen byte stores and answers
  private-information-retrieval style queries: a query is a bitstring, and the
  answer is the XOR of the blocks whose bits are set.

This project models five parts:

- `gf256.dfy` (module `GF256`): the field. The hard-coded exponent and logarithm
  tables are proved to be 3^k and the discrete logarithm, and add, sub, mul and
  div are proved to form a field.
- `polynomial.dfy`, `lagrange.dfy`: the polynomial engine. Evaluation `_f`,
  `_add_polynomials`, `_multiply_polynomials` and `_full_lagrange` are modelled
  as loops. Each is proved against a specification function.
- `shamir.dfy`: the `ShamirSecret` class of both sharers, `shamirsecret.py` and
  the fast variant. It covers seeding, share computation and checking, and
  one-shot recovery. The central result is the round trip: shares issued by a
  seeded sharer recover its secret.
- `passwordstore.dfy`: the Python `PolyPasswordHasher`.
- `rubystore.dfy`: the Ruby `PolyPassHash`.

  Both stores are classes whose methods update the account map, the share
  counter, the lock flag and the key. Each method is specified by functions of
  the old state.
- `xortable.dfy`, `xorstore.dfy`: the C descriptor table and XOR worker over
  arrays, and the Python `XORDatastore` wrapper around them.

`outcomes.dfy` holds the shared `Result`/`Option` types and one error
constructor per exception the source raises. `crypto.dfy` holds the hash
primitives and Python/Ruby slicing.

SHA-256 and AES are fields of a `Primitives` value, arbitrary deterministic
functions. `os.urandom` salts and random coefficients are parameters.

## Model

| member | source | states |
|---|---|---|
| GF256.ExpTableMatches | python-reference-implementation/shamirsecret.py:365-400 | entry n of the hard-coded exponent table is 3^n in the AES field (reduction polynomial 0x11b) |
| GF256.LogTableMatches | python-reference-implementation/shamirsecret.py:404-435 | the hard-coded logarithm table holds the discrete logarithm to base 3, with the placeholder 0 at entry 0 |
| GF256.ExpTableLogTable | python-reference-implementation/shamirsecret.py:369-435 | EXP[LOG[a]] == a for every nonzero byte, with LOG[a] in 0..254 |
| GF256.LogTableExpTable | python-reference-implementation/shamirsecret.py:369-435 | LOG[EXP[k]] == k for k in 0..254 |
| GF256.ExpPeriod | python-reference-implementation/shamirsecret.py:365-400 | 3 has order 255, which is why entry 255 repeats entry 0 |
| GF256.ExpInjective | python-reference-implementation/shamirsecret.py:365-400 | the powers 3^0 .. 3^254 are pairwise different |
| GF256.AddSelfInverse | python-reference-implementation/shamirsecret.py:438-442 | sub(add(a, b), b) == a: addition is XOR and subtraction is the same operation |
| GF256.Mul | python-reference-implementation/shamirsecret.py:444-447 | the product is zero exactly when a factor is |
| GF256.MulReadsTables | python-reference-implementation/shamirsecret.py:444-447 | for nonzero factors the product is EXP[(LOG[a] + LOG[b]) % 255], the lookup _gf256_mul does |
| GF256.MulComm | python-reference-implementation/shamirsecret.py:444-447 | multiplication is commutative |
| GF256.MulAssoc | python-reference-implementation/shamirsecret.py:444-447 | multiplication is associative |
| GF256.MulOne | python-reference-implementation/shamirsecret.py:444-447 | 1 is the unit of multiplication |
| GF256.MulDistrib | python-reference-implementation/shamirsecret.py:438-447 | multiplication distributes over addition |
| GF256.MulCancel | python-reference-implementation/shamirsecret.py:444-447 | a nonzero factor can be cancelled |
| GF256.Quotient | python-reference-implementation/shamirsecret.py:449-454 | for a nonzero divisor, quotient times divisor gives back the dividend |
| GF256.QuotientReadsTables | python-reference-implementation/shamirsecret.py:449-454 | for nonzero operands the quotient is EXP[(LOG[a] - LOG[b]) % 255], Python's non-negative remainder |
| GF256.Div | python-reference-implementation/shamirsecret.py:449-454 | div(0, b) is 0 for every b, 0 / 0 included; a nonzero a over 0 raises ZeroDivisionError; otherwise mul(div(a, b), b) == a |
| GF256.QuotientIsMulInverse | python-reference-implementation/shamirsecret.py:449-454 | dividing by d is multiplying by the inverse of d |
| Crypto.RehashLoop | python-reference-implementation/polypasswordhasher.py:479-480 | the `for i in range(1, n)` hashing loop applies the hash n - 1 times, and 0 times when n < 1 |
| Crypto.RehashAdd | python-reference-implementation/polypasswordhasher.py:479-480 | hashing n times then m times is hashing n + m times |
| Crypto.PyDrop | python-reference-implementation/polypasswordhasher.py:482 | Python's `s[start:]`, where a negative start counts from the end |
| Crypto.PyTake | python-reference-implementation/polypasswordhasher.py:308 | Python's `s[:stop]`, where a negative stop counts from the end |
| Crypto.RubyRange | ruby-implementation/polypasshash.rb:56 | Ruby's inclusive `s[a..b]`: negative indices count from the end, the end is clipped, a start past the string gives nil |
| Polynomial.F | python-reference-implementation/shamirsecret.py:239-256 | `_f` raises for x == 0, otherwise returns the polynomial's value at x; a single coefficient evaluates to itself |
| Polynomial.AddPolynomials | python-reference-implementation/shamirsecret.py:298-313 | the loop pads the shorter operand and returns the coefficient-wise sum, as long as the longer operand |
| Polynomial.PolyAdd | python-reference-implementation/shamirsecret.py:298-313 | the sum is as long as the longer operand, and coefficient k is the XOR of the two coefficients k (zero past an end) |
| Polynomial.MultiplyPolynomials | python-reference-implementation/shamirsecret.py:273-292 | the loop's result is the product polynomial |
| Polynomial.PolyMul | python-reference-implementation/shamirsecret.py:273-292 | the product of non-empty operands has len(a) + len(b) - 1 coefficients; an empty b gives [] |
| Polynomial.MultiplyExample | python-reference-implementation/shamirsecret.py:262-272 | the documented example: [1, 3, 4] * [4, 5] == [4, 9, 31, 20] |
| Polynomial.EvalAdd | python-reference-implementation/shamirsecret.py:298-313 | the value of a sum is the sum of the values |
| Polynomial.EvalMul | python-reference-implementation/shamirsecret.py:273-292 | the value of a product is the product of the values |
| Polynomial.EvalPadded | python-reference-implementation/shamirsecret.py:239-256 | trailing zero coefficients do not change a polynomial's value |
| Lagrange.FullLagrange | python-reference-implementation/shamirsecret.py:320-356 | `_full_lagrange` returns the interpolant of the points |
| Lagrange.BasisPolynomial | python-reference-implementation/shamirsecret.py:330-345 | the inner loop builds l_i; it raises ZeroDivisionError exactly when some other x equals x_i |
| Lagrange.Interpolate | python-reference-implementation/shamirsecret.py:320-356 | it fails iff two x values coincide, and then with ZeroDivisionError; otherwise it has exactly len(xs) coefficients |
| Lagrange.BasisAtOwn | python-reference-implementation/shamirsecret.py:330-345 | l_i is 1 at x_i |
| Lagrange.BasisAtOther | python-reference-implementation/shamirsecret.py:330-345 | l_i is 0 at every other point |
| Lagrange.InterpolateFits | python-reference-implementation/shamirsecret.py:320-356 | for distinct xs the interpolant takes fxs[k] at xs[k] |
| Lagrange.ZeroPolynomial | python-reference-implementation/shamirsecret.py:320-356 | a polynomial with no more coefficients than it has distinct roots is zero (uniqueness of the interpolant) |
| Lagrange.InterpolateRecovers | python-reference-implementation/shamirsecret.py:320-356 | interpolating samples of a polynomial with at most n coefficients at n distinct points gives its coefficients back, zero-padded to n |
| Shamir.ShamirSecret.constructor | python-reference-implementation/shamirsecret.py:73-92 | an object built for recovery holds the threshold and no secret or coefficients |
| Shamir.ShamirSecret.Seeded | python-reference-implementation/polypasswordhasher/fastshamirsecret.py:99-108 | seeding gives one coefficient list per secret byte, of length threshold, starting with that byte and followed by the random bytes |
| Shamir.ShareAt | python-reference-implementation/shamirsecret.py:130-152 | compute_share succeeds exactly for x in 1..255 with coefficients present; it rejects other x, then the unseeded state; the share holds x and one byte per coefficient list |
| Shamir.ShamirSecret.ComputeShare | python-reference-implementation/polypasswordhasher/fastshamirsecret.py:146-169 | the method's loop returns what ShareAt specifies |
| Shamir.ValidShare | python-reference-implementation/shamirsecret.py:96-124 | raises without coefficients or on a length mismatch; otherwise true exactly when compute_share(x) is the share itself |
| Shamir.ShamirSecret.IsValidShare | python-reference-implementation/polypasswordhasher/fastshamirsecret.py:112-140 | the method returns what ValidShare specifies |
| Shamir.FastF | python-reference-implementation/polypasswordhasher/fastshamirsecret.py:78-79 | the fast wrapper refuses x outside 0..255 when packing it, raises for 0, and otherwise evaluates as `_f` does |
| Shamir.LagrangeInts | python-reference-implementation/polypasswordhasher/fastshamirsecret.py:67-76 | the fast wrapper refuses points outside 0..255; on success there is one coefficient per point |
| Shamir.LagrangeIntsInRange | python-reference-implementation/polypasswordhasher/fastshamirsecret.py:67-76 | with points in 0..255 the wrapper is `_full_lagrange` at those bytes |
| Shamir.Dedupe | python-reference-implementation/shamirsecret.py:164-168 | the de-duplicated list keeps exactly the shares of the input, each once, and is no longer than the input |
| Shamir.DedupeShares | python-reference-implementation/polypasswordhasher/fastshamirsecret.py:181-185 | the de-duplication loop returns Dedupe's list |
| Shamir.DedupeDistinct | python-reference-implementation/shamirsecret.py:164-168 | pairwise different shares are all kept, in order |
| Shamir.CheckXs | python-reference-implementation/shamirsecret.py:178-187 | the x loop succeeds iff the x values are distinct and all lengths equal the first share's; it collects the x values in order, else raises one of the two errors |
| Shamir.CollectXs | python-reference-implementation/polypasswordhasher/fastshamirsecret.py:196-207 | the loop returns CheckXs's outcome |
| Shamir.HighTermsZeroIff | python-reference-implementation/shamirsecret.py:208-209 | the consistency test passes exactly when every interpolated coefficient from the threshold on is zero |
| Shamir.RecoverBytes | python-reference-implementation/polypasswordhasher/fastshamirsecret.py:67-76 | a byte loop that succeeds keeps, per byte position, the whole interpolant and its constant term as the secret byte; its errors are the fast wrapper's range error for an x outside 0..255, then the division and consistency errors |
| Shamir.RecoverAllBytes | python-reference-implementation/polypasswordhasher/fastshamirsecret.py:210-236 | the byte loop returns RecoverBytes's outcome over every position |
| Shamir.Recovery | python-reference-implementation/shamirsecret.py:158-221 | too few unique shares raises before a held secret does; a success yields one coefficient list per secret byte whose constant term is that byte |
| Shamir.ShamirSecret.RecoverSecretdata | python-reference-implementation/shamirsecret.py:158-221 | recover_secretdata fails exactly as Recovery does and then leaves both fields as they were; on success it stores Recovery's coefficients and secret |
| Shamir.RecoverRoundTrip | python-reference-implementation/shamirsecret.py:26-46 | recovery by an object without a secret, from at least threshold genuine shares at distinct x, gives back every coefficient list (zero-padded) and the secret |
| Shamir.PaddedValidAgree | python-reference-implementation/shamirsecret.py:26-46 | the recovered object accepts exactly the shares the original accepts |
| Shamir.PaddedSharesAgree | python-reference-implementation/shamirsecret.py:130-152 | the recovered object issues the same share at every x as the original |
| Shamir.SharesAt | python-reference-implementation/shamirsecret.py:130-152 | compute_share at each x in 1..255 succeeds, giving one share per x |
| Shamir.SharesAtGenuine | python-reference-implementation/shamirsecret.py:130-152 | the shares at distinct x in 1..255 are genuine shares of the coefficients |
| Shamir.RecoveryNeedsByteXs | python-reference-implementation/polypasswordhasher/fastshamirsecret.py:67-76 | a successful recovery had every x of a non-empty share in 0..255 |
| PasswordStore.Xor | python-reference-implementation/polypasswordhasher.py:490-503 | `_do_bytearray_XOR` asserts equal lengths, then XORs byte by byte |
| PasswordStore.BytearrayXor | python-reference-implementation/polypasswordhasher.py:490-503 | the loop returns what Xor specifies |
| PasswordStore.XorInvolution | python-reference-implementation/polypasswordhasher.py:490-503 | XORing with the same hash twice gives the share back |
| PasswordStore.XorOtherMask | python-reference-implementation/polypasswordhasher.py:490-503 | XORing with a different hash of the same length cannot give the share back |
| PasswordStore.IsolatedBits | python-reference-implementation/polypasswordhasher.py:472-483 | the isolated check bytes are icbs bytes long |
| PasswordStore.IsolatedValidationBits | python-reference-implementation/polypasswordhasher.py:472-483 | the method with its hashing loop returns those bytes |
| PasswordStore.IsolatedBitsStretched | python-reference-implementation/polypasswordhasher.py:472-483 | a password's check bytes are the last icbs bytes of salt + password hashed 1000 times in all |
| PasswordStore.Fingerprint | python-reference-implementation/polypasswordhasher.py:436-459 | the integrity check is a 32-byte digest |
| PasswordStore.IntegrityCheck | python-reference-implementation/polypasswordhasher.py:436-459 | the method with its two loops returns Fingerprint |
| PasswordStore.FingerprintStretched | python-reference-implementation/polypasswordhasher.py:436-459 | the integrity check is the secret and the prefixes hashed 100000 times in all |
| PasswordStore.GenuineRecoveryFingerprint | python-reference-implementation/polypasswordhasher.py:425-434 | recovery from enough genuine shares reproduces the fingerprint taken at creation, so verify_secret accepts it |
| PasswordStore.IssueShares | python-reference-implementation/polypasswordhasher.py:254-271 | the share loop numbers its entries consecutively from next with one salt each, and makes all of them unless a step raised |
| PasswordStore.IssueSharesComplete | python-reference-implementation/polypasswordhasher.py:254-271 | with a 32-byte secret's coefficients and numbers in 1..255 no step raises |
| PasswordStore.IssuedEntry | python-reference-implementation/polypasswordhasher.py:254-271 | entry k holds share number first + k, its salt, and salted hash XOR share followed by the isolated check bytes |
| PasswordStore.IssueLoop | python-reference-implementation/polypasswordhasher.py:254-271 | the loop returns IssueShares |
| PasswordStore.Login | python-reference-implementation/polypasswordhasher.py:276-337 | locked with no check bytes raises first, an unknown user next; otherwise the first entry alone decides |
| PasswordStore.FirstEntryDecides | python-reference-implementation/polypasswordhasher.py:291-337 | stores that agree on an account's first entry agree on its logins |
| PasswordStore.BootstrapEntryLogsIn | python-reference-implementation/polypasswordhasher.py:296-297 | a bootstrap entry accepts its password, locked or not |
| PasswordStore.ShieldedEntryLogsIn | python-reference-implementation/polypasswordhasher.py:316-324 | a shielded entry accepts its password once unlocked |
| PasswordStore.ShareEntryLogsIn | python-reference-implementation/polypasswordhasher.py:308-337 | every share entry made for a password logs in with that password once unlocked |
| PasswordStore.LockedEntryLogsIn | python-reference-implementation/polypasswordhasher.py:300-305 | while locked, an entry ending in its own check bytes accepts its password by isolated validation alone |
| PasswordStore.BootstrapEntryRejects | python-reference-implementation/polypasswordhasher.py:296-297 | a bootstrap entry answers False, locked or not, to a password whose salted hash differs |
| PasswordStore.ShieldedEntryRejects | python-reference-implementation/polypasswordhasher.py:307-324 | once unlocked, a shielded entry under a one-to-one cipher answers False to a password whose salted hash differs, or the XOR assertion raises when the ciphertext is not 32 bytes |
| PasswordStore.ShareEntryRejects | python-reference-implementation/polypasswordhasher.py:307-337 | once unlocked, every share entry made for a password answers False to a password whose salted hash differs |
| PasswordStore.LockedEntryRejects | python-reference-implementation/polypasswordhasher.py:299-305 | while locked, an entry answers False to a password whose isolated check bytes differ from the ones it ends in |
| PasswordStore.AddShareAccount | python-reference-implementation/polypasswordhasher.py:254-271 | adding entries numbered next, next+1, ... to a store whose numbers are below next keeps them below the advanced counter, and keeps them unique if they were |
| PasswordStore.AddUnsharedAccount | python-reference-implementation/polypasswordhasher.py:212-252 | adding a 0-share account keeps share numbers below the same counter, and unique if they were |
| PasswordStore.LoadedNextLeast | python-reference-implementation/polypasswordhasher.py:175-181 | max + 1 is the least counter above every stored share number |
| PasswordStore.LoadedNextAsWrittenSkips | python-reference-implementation/polypasswordhasher.py:181 | the doubled counter skips numbers once max >= 2 and forbids every account once max >= 128 |
| PasswordStore.EntryShares | python-reference-implementation/polypasswordhasher.py:383-395 | one login contributes at most one share per entry; the only error is the XOR length assertion |
| PasswordStore.LoginShares | python-reference-implementation/polypasswordhasher.py:377-395 | gathering raises only for an unknown user or the XOR assertion |
| PasswordStore.GatherEntryShares | python-reference-implementation/polypasswordhasher.py:383-395 | the inner loop returns EntryShares |
| PasswordStore.PolyPasswordHasher.GatherShares | python-reference-implementation/polypasswordhasher.py:377-395 | the gathering loops return LoginShares |
| PasswordStore.IssuedSharesGathered | python-reference-implementation/polypasswordhasher.py:254-271 | logging in with the password of an n-share account gives back exactly the n shares it was made from |
| PasswordStore.AccountUnlocks | python-reference-implementation/polypasswordhasher.py:363-414 | an account holding at least threshold shares unlocks the store alone: recovery yields the secret and passes the fingerprint |
| PasswordStore.ShareNumbers | python-reference-implementation/polypasswordhasher.py:383-395 | the share numbers an account's entries contribute are nonzero numbers of its entries |
| PasswordStore.LoginNumbers | python-reference-implementation/polypasswordhasher.py:377-395 | the share numbers a list of logins contributes are each a nonzero number of some logged-in account |
| PasswordStore.IssuedMadeFrom | python-reference-implementation/polypasswordhasher.py:254-271 | every entry of the share loop is its share masked by the password's salted hash, followed by the check bytes |
| PasswordStore.IssuedNumbers | python-reference-implementation/polypasswordhasher.py:254-271 | the share loop's entries carry the numbers first, first+1, ..., first+n-1 |
| PasswordStore.GatheredMadeEntry | python-reference-implementation/polypasswordhasher.py:385-395 | a shielded entry contributes no share, and a share entry its own share, to a login with the password it was made from |
| PasswordStore.EntriesGathered | python-reference-implementation/polypasswordhasher.py:383-395 | the shares a login gathers from such entries are the sharer's shares at the entries' nonzero numbers |
| PasswordStore.LoginsGathered | python-reference-implementation/polypasswordhasher.py:377-395 | gathering over several logins gives the sharer's shares at all their share numbers, in order |
| PasswordStore.ShareNumbersDistinct | python-reference-implementation/polypasswordhasher.py:254-271 | within an account with unique share numbers, the contributed numbers are pairwise distinct |
| PasswordStore.OtherAccountNumber | python-reference-implementation/polypasswordhasher.py:254-271 | two different accounts never hold the same share number of 1 or more |
| PasswordStore.AccountNumbersDistinct | python-reference-implementation/polypasswordhasher.py:254-271 | an account's contributed numbers are pairwise distinct |
| PasswordStore.LoginNumbersDistinct | python-reference-implementation/polypasswordhasher.py:377-395 | logins of different accounts contribute pairwise distinct share numbers |
| PasswordStore.AccountsUnlock | python-reference-implementation/polypasswordhasher.py:363-414 | several accounts together, 0-share ones included, gather the sharer's genuine shares at distinct numbers; once they reach threshold, recovery yields the secret and passes the fingerprint |
| PasswordStore.BootstrapShareBlocksRecovery | python-reference-implementation/polypasswordhasher.py:383-395 | a bootstrap login contributes a share at x = -1, and any recovery including it fails |
| PasswordStore.Shield | python-reference-implementation/polypasswordhasher.py:402-414 | the bootstrap conversion as written keeps the set of accounts |
| PasswordStore.ShieldAccounts | python-reference-implementation/polypasswordhasher.py:402-414 | as written, each pending account gets share number 0 with its ciphertext under 'passshash'; other accounts are untouched |
| PasswordStore.ShieldCorrectedAccounts | python-reference-implementation/polypasswordhasher.py:402-414 | corrected, each pending account becomes a shielded entry; other accounts are untouched |
| PasswordStore.ShieldLoop | python-reference-implementation/polypasswordhasher.py:402-414 | the conversion loop returns ShieldCorrected |
| PasswordStore.ShieldKeepsNumbers | python-reference-implementation/polypasswordhasher.py:402-414 | converting pending bootstrap accounts keeps share numbers unique and below next |
| PasswordStore.PolyPasswordHasher.New | python-reference-implementation/polypasswordhasher.py:129-158 | a new store is unlocked with next == 1, a sharer seeded with the 32-byte key, and the key's fingerprint recorded; its share numbers are unique and below next |
| PasswordStore.PolyPasswordHasher.Load | python-reference-implementation/polypasswordhasher.py:160-181 | a loaded store is locked, with an empty sharer and next one past the largest stored share number, so every stored share number is below next |
| PasswordStore.PolyPasswordHasher.CreateAccount | python-reference-implementation/polypasswordhasher.py:188-271 | refusals in the source's order, each changing nothing; locked 0-share accounts are bootstrap entries queued for conversion; unlocked ones get one shielded entry or `shares` consecutive share entries and advance the counter; a success keeps share numbers unique and below next, and uniqueness holds even after a failed share loop |
| PasswordStore.PolyPasswordHasher.IsValidLogin | python-reference-implementation/polypasswordhasher.py:276-337 | the login answer is Login of the current state |
| PasswordStore.PolyPasswordHasher.WritePasswordData | python-reference-implementation/polypasswordhasher.py:341-344 | writing is refused exactly when threshold >= next |
| PasswordStore.PolyPasswordHasher.UnlockPasswordData | python-reference-implementation/polypasswordhasher.py:363-414 | already unlocked raises; gathering and recovery errors change nothing; a recombination that fails the fingerprint leaves the sharer holding it and the store locked; success sets the key, converts the pending accounts and unlocks; share numbers stay unique and below next |
| RubyStore.RubyXor | ruby-implementation/polypasshash.rb:149-161 | `_do_bytearray_XOR` yields one byte per byte of the first operand and raises when the second runs out |
| RubyStore.BytearrayXor | ruby-implementation/polypasshash.rb:149-161 | the loop returns RubyXor |
| RubyStore.RubyXorRecovers | ruby-implementation/polypasshash.rb:149-161 | XOR with the same hash twice gives back the leading bytes of the data |
| RubyStore.SuffixIsLast | ruby-implementation/polypasshash.rb:56 | the partial-check bytes are the last partialbytes bytes of the raw salted hash |
| RubyStore.BodyOfJoined | ruby-implementation/polypasshash.rb:94 | cutting partialbytes off a stored hash gives back the XORed part |
| RubyStore.ShieldedEntry | ruby-implementation/polypasshash.rb:46-61 | a 0-share entry can be made whenever partialbytes is in 0..32 |
| RubyStore.IssueShares | ruby-implementation/polypasshash.rb:63-75 | the share loop numbers entries consecutively from next, one salt each, all of them unless a step raised |
| RubyStore.IssueSharesComplete | ruby-implementation/polypasshash.rb:63-75 | with a 32-byte secret's coefficients, numbers in 1..255 and at most 32 check bytes no step raises |
| RubyStore.IssuedEntry | ruby-implementation/polypasshash.rb:63-75 | entry k is share number first + k, its salt, hash XOR share, then the last bytes of the raw hash |
| RubyStore.IssueLoop | ruby-implementation/polypasshash.rb:63-75 | the loop returns IssueShares |
| RubyStore.Login | ruby-implementation/polypasshash.rb:79-113 | locked with partialbytes 0 raises, an unknown user next (a bare `raise`, so a RuntimeError here, where unlock raises the file's own ValueError; both are tagged UnknownUser); an account without entries returns its truthy empty list; otherwise the first entry decides |
| RubyStore.ShieldedEntryLogsIn | ruby-implementation/polypasshash.rb:96-107 | a shielded entry accepts its password once unlocked |
| RubyStore.ShareEntryLogsIn | ruby-implementation/polypasshash.rb:94-111 | a share entry accepts its password once unlocked |
| RubyStore.LockedEntryLogsIn | ruby-implementation/polypasshash.rb:86-92 | while locked, an entry ending in the raw hash's last bytes accepts its password |
| RubyStore.RubyXorOtherMask | ruby-implementation/polypasshash.rb:149-161 | XORing with a different hash cannot give back the leading bytes of the data |
| RubyStore.ShieldedEntryRejects | ruby-implementation/polypasshash.rb:94-107 | once unlocked, a shielded entry under a one-to-one cipher answers false to a password whose salted hash differs, or the XOR raises when the ciphertext is shorter than 32 bytes |
| RubyStore.ShareEntryRejects | ruby-implementation/polypasshash.rb:94-111 | once unlocked, every share entry made for a password answers false to a password whose salted hash differs |
| RubyStore.LockedEntryRejects | ruby-implementation/polypasshash.rb:86-92 | while locked, an entry answers false to a password whose raw hash ends in other bytes |
| RubyStore.EntryShares | ruby-implementation/polypasshash.rb:131-138 | one login contributes at most one share per entry; the only error is the short XOR operand |
| RubyStore.LoginShares | ruby-implementation/polypasshash.rb:125-140 | gathering raises only for an unknown user or a short XOR operand |
| RubyStore.GatherEntryShares | ruby-implementation/polypasshash.rb:131-138 | the inner loop returns EntryShares |
| RubyStore.PolyPassHash.GatherShares | ruby-implementation/polypasshash.rb:125-140 | the gathering loops return LoginShares |
| RubyStore.ShareNumbers | ruby-implementation/polypasshash.rb:131-138 | the share numbers an account's entries contribute are nonzero numbers of its entries |
| RubyStore.IssuedMadeFrom | ruby-implementation/polypasshash.rb:63-75 | every entry of the share loop is the hash XOR its share followed by the raw hash's last bytes |
| RubyStore.IssuedNumbers | ruby-implementation/polypasshash.rb:63-75 | the share loop's entries carry the numbers first, first+1, ..., first+n-1 |
| RubyStore.GatheredMadeEntry | ruby-implementation/polypasshash.rb:131-138 | a shielded entry contributes no share, and a share entry its own share, to a login with its password |
| RubyStore.EntriesGathered | ruby-implementation/polypasshash.rb:131-138 | the shares a login gathers from such entries are the sharer's shares at the entries' nonzero numbers |
| RubyStore.IssuedSharesGathered | ruby-implementation/polypasshash.rb:63-75 | logging in with the password of an n-share account gives back exactly the n shares it was made from |
| RubyStore.AccountUnlocks | ruby-implementation/polypasshash.rb:120-145 | an account holding at least threshold shares unlocks the store alone: its login gathers its shares and recovery gives back the secret |
| RubyStore.PolyPassHash.New | ruby-implementation/polypasshash.rb:9-22 | a new store is unlocked with next == 1 and the random key shared |
| RubyStore.PolyPassHash.Load | ruby-implementation/polypasshash.rb:24-37 | a loaded store is locked, with an empty sharer and next one past the largest stored share number (at least 2) |
| RubyStore.PolyPassHash.CreateAccount | ruby-implementation/polypasshash.rb:40-77 | locked, duplicate name or too few numbers left refuse and change nothing; 0 shares adds one shielded entry; otherwise the share entries and next advanced by shares |
| RubyStore.PolyPassHash.IsValidLogin | ruby-implementation/polypasshash.rb:79-113 | the login answer is Login of the current state |
| RubyStore.PolyPassHash.WritePasswordData | ruby-implementation/polypasshash.rb:115-116 | writing is refused exactly when threshold >= next |
| RubyStore.PolyPassHash.UnlockPasswordData | ruby-implementation/polypasshash.rb:120-145 | already unlocked raises; errors change nothing; otherwise the recombined secret becomes the key and the store unlocks with no fingerprint check |
| XorTable.XorByteBlocks | python-reference-implementation/fastsimplexordatastore.c:38-45 | dest[i] ^= data[i] for i < count, in place; bytes past count untouched |
| XorTable.XoredInvolution | python-reference-implementation/fastsimplexordatastore.c:28-45 | XORing the same string twice gives back the original |
| XorTable.DoXorC | python-reference-implementation/fastsimplexordatastore.c:376-414 | the C do_xor returns the byte-wise XOR of the first `length` bytes of both strings |
| XorTable.Slot.constructor | python-reference-implementation/fastsimplexordatastore.c:88-96 | a new slot has the requested shape and an all-zero store |
| XorTable.Table.constructor | python-reference-implementation/fastsimplexordatastore.c:20-23 | the static table starts uninitialised |
| XorTable.Table.Allocate | python-reference-implementation/fastsimplexordatastore.c:66-124 | a block size not a multiple of 64 is refused; otherwise the lowest unused slot gets a zeroed store of the requested shape, or -1 with no change when all sixteen are used |
| XorTable.Table.Deallocate | python-reference-implementation/fastsimplexordatastore.c:291-319 | the slot becomes unused, used or not, and nothing else changes |
| XorTable.Table.SetData | python-reference-implementation/fastsimplexordatastore.c:221-249 | unused descriptor or data past the end is refused with the store unchanged; otherwise exactly bytes [offset, offset+len) are replaced; other slots unchanged |
| XorTable.Table.GetData | python-reference-implementation/fastsimplexordatastore.c:261-284 | the same descriptor and bounds checks; otherwise the stored bytes [offset, offset+quantity) |
| XorTable.Table.ProduceXorFromBitstring | python-reference-implementation/fastsimplexordatastore.c:172-210 | unused descriptor raises; otherwise, from a zeroed block-size buffer, the XOR of every existing block whose bit (MSB first) is set; bits past the last block are ignored |
| XorTable.BitstringXorWorker | python-reference-implementation/fastsimplexordatastore.c:137-163 | the worker XORs into result exactly the selected blocks that exist, bit k choosing block k |
| XorTable.WalkStep | python-reference-implementation/fastsimplexordatastore.c:151-162 | one iteration of the worker: block k is XORed in iff its bit is set, and the mask moves to bit k + 1 |
| XorTable.SelectStep | python-reference-implementation/fastsimplexordatastore.c:151-162 | one more block adds block k exactly when bit k is set |
| XorTable.SingleBitSelectsBlock | python-reference-implementation/fastsimplexordatastore.c:137-163 | a bitstring with only bit k set produces exactly block k |
| XorTable.XorOfSelectedLinear | python-reference-implementation/fastsimplexordatastore.c:137-163 | the answer for the XOR of two bitstrings is the XOR of the answers |
| XorTable.SurplusBitsIgnored | python-reference-implementation/fastsimplexordatastore.py:94-116 | bits past the last block play no part in the answer |
| XorTable.BlocksReadAsWritten | python-reference-implementation/fastsimplexordatastore.c:151-162 | as written the worker reads a block for every set bit among all 8 * len bits |
| XorTable.SurplusBitReadsPastStore | python-reference-implementation/fastsimplexordatastore.c:151-162 | with a block count not a multiple of 8, a bitstring of the demanded length can make the worker read the block past the store |
| XorTable.OverwrittenReadBack | python-reference-implementation/fastsimplexordatastore.c:221-284 | written bytes read back, and every other byte is as before |
| XorStore.DoXor | python-reference-implementation/fastsimplexordatastore.py:22-29 | unequal lengths are refused; equal ones reach the C call with two arguments where three are parsed, which raises |
| XorStore.DoXorNeverXors | python-reference-implementation/fastsimplexordatastore.py:22-29 | as written no pair of strings gets its XOR back; do_xor("ab", "cd") fails |
| XorStore.DoXorCorrected | python-reference-implementation/fastsimplexordatastore.py:22-29 | with the length passed on, equal lengths give the byte-wise XOR |
| XorStore.BitstringBytes | python-reference-implementation/fastsimplexordatastore.py:112-113 | the demanded bitstring length is ceil(numberofblocks / 8) bytes |
| XorStore.Create | python-reference-implementation/fastsimplexordatastore.py:52-87 | sizes checked in the wrapper's order; a valid one gets the lowest free slot with a zeroed store, or descriptor -1 when the table is full |
| XorStore.XORDatastore.constructor | python-reference-implementation/fastsimplexordatastore.py:84-87 | the object records the table, the descriptor and both sizes |
| XorStore.XORDatastore.Contents | python-reference-implementation/fastsimplexordatastore.py:52-87 | a datastore holds numberofblocks * sizeofblocks bytes |
| XorStore.XORDatastore.ProduceXorFromBitstring | python-reference-implementation/fastsimplexordatastore.py:90-116 | a bitstring of the wrong length is refused; otherwise the block-long XOR of the selected blocks |
| XorStore.XORDatastore.SetData | python-reference-implementation/fastsimplexordatastore.py:121-152 | a negative offset or data past the end is refused with the store unchanged; otherwise the bytes from offset on are overwritten; no other store changes |
| XorStore.XORDatastore.GetData | python-reference-implementation/fastsimplexordatastore.py:160-194 | negative offset, non-positive quantity or a range past the end are refused, in that order; otherwise the stored bytes |
| XorStore.XORDatastore.Delete | python-reference-implementation/fastsimplexordatastore.py:200-214 | the descriptor's slot is returned to the table |
| XorStore.RetrieveBlock | python-reference-implementation/fastsimplexordatastore.py:90-116 | the bitstring with bit k alone set yields bytes k*size .. (k+1)*size of the store |
| XorStore.WriteThenRetrieve | python-reference-implementation/fastsimplexordatastore.py:121-152 | a block written with set_data at its offset is what retrieval of it yields |
| XorStore.TwoMirrorsRetrieve | python-reference-implementation/fastsimplexordatastore.py:90-116 | two mirrors answering bitstrings that differ only in bit k give, XORed, block k |

## Left out

- SHA-256 and AES are not modelled. They are arbitrary deterministic functions in a `Primitives` value, and the 1000- and 100000-round hash loops apply that function n - 1 times. AES padding and the Ruby `pkcs5_keyivgen` key derivation are therefore not modelled.
- `os.urandom` and `OpenSSL::Random` are parameters: the 32-byte key, the random coefficients (`randomness`) and one salt per entry (`salt(k)`).
- `pickle` and `Marshal` file I/O in `write_password_data` and the load paths is left out. The model keeps the counter guard and the rebuilding of the counter from the stored entries.
- The `print` break-in warnings have no effect on state and are left out.
- Dynamic type checks that raise `TypeError`, and `is_valid_share`'s tuple-shape test, are replaced by static types.
- python-reference-implementation/fastpolymath.c is not part of this model. The fast sharer's `f` and `full_lagrange` are the `shamirsecret.py` definitions behind the byte-packing wrappers.
- The Ruby sharer (`shamirsecret.rb`) is not part of this model. `RubyStore` uses the same sharer model as the Python store.
- `dword_align`, `fast_XOR` and `XOR_fullblocks` are pointer plumbing, so blocks are byte sequences. This includes `fast_XOR`'s inverted alignment test, which skips the XOR when both buffers are aligned alike.
- malloc, bzero and free are modelled as fresh zeroed arrays and null slots. Out-of-memory is not modelled.
- Python C-API argument parsing is left out, except the argument count that `do_xor` gets wrong. NUL bytes in "s" arguments are not modelled.
- XorTable.Table.SetData and XorTable.Table.GetData require a non-negative offset. The C code does not check it, and a negative offset is undefined behaviour there; the Python wrapper refuses it first.
- XorTable.Table.SetData does not model `quantity` as a C `int`. Lengths are unbounded.
- XorTable.Table.GetData requires a non-negative quantity and does not model `quantity` as a C `int`. The C code (fastsimplexordatastore.c:261-284) never checks it. A negative quantity passes the bounds test and reaches `Py_BuildValue("s#", ...)`, and without `PY_SSIZE_T_CLEAN` that length is read as an `int`. A negative length there makes Python take `strlen` from the offset, which returns the bytes up to the first zero byte and reads past the store when there is none. A quantity of 2^31 or more is truncated. The Python wrapper (fastsimplexordatastore.py:160-194) refuses a quantity <= 0 before the call.
- XorTable.Table.Allocate requires non-negative sizes when the block size is a multiple of 64. A negative size passed to malloc is not modelled.
- XorStore.XORDatastore.ProduceXorFromBitstring, SetData and GetData require a held descriptor. An object created with descriptor -1 when the table was full passes -1 to the C functions. Their `is_table_entry_used` check (fastsimplexordatastore.c:57-58, called at :185, :234 and :271) reads the table at index -1, which is undefined behaviour in C. That case is not modelled.
- XorStore.XORDatastore.Delete requires a descriptor in 0..15. For an object holding -1, `__del__` passes -1 to `deallocate`, which reads the table at index -1 (undefined behaviour in C). That case is not modelled.
- PasswordStore.PolyPasswordHasher.Load requires at least one stored entry. The load path leaves the counter at the class attribute `None` (polypasswordhasher.py:127) and takes `max(None, sharenumber)` once per entry (:178). With no entries, line 181 evaluates `None + None` and raises a TypeError. That case is not modelled.
- PasswordStore.PolyPasswordHasher.Load starts the counter at max + 1 rather than the doubled value the source computes (see Findings). RubyStore.PolyPassHash.Load is the source's own max + 1, or 2 when no entry exceeds 1.
- PasswordStore.PolyPasswordHasher.UnlockPasswordData converts pending bootstrap accounts the corrected way (see Findings). `ShieldAccounts` and `UnlockedBootstrapLoginRaises` state what the source as written does.
- PasswordStore.PolyPasswordHasher.New and RubyStore.PolyPassHash.New require 32 random strings of threshold - 1 bytes each. The threshold must be at least 1.
- PasswordStore.ShieldedEntryLogsIn, PasswordStore.ShareEntryLogsIn and the Ruby lemmas of the same names assume `isolated_check_bits` or `partialbytes` is in 0..32. They also assume a cipher that keeps the 32-byte length (Python) or at least 32 bytes (Ruby); larger suffixes are not covered.
- The two `ShamirSecret` classes, in `shamirsecret.py` and `fastshamirsecret.py`, are modelled by one class. Their checks agree for x in 0..255, and the class follows the fast variant, whose byte packing is modelled by `FastF` and `LagrangeInts`.
- Shamir.Recovery, Shamir.RecoverBytes and Shamir.ShamirSecret.RecoverSecretdata give the range error of `fastshamirsecret.py` (lines 67-76) for an x outside 0..255. The behaviour of `shamirsecret.py` on such an x is not modelled. There, x >= 256 raises IndexError at the table lookup (shamirsecret.py:444-456), and a negative x indexes the tables from the end without an error.
- XorTable.BitstringXorWorker walks only the bits of existing blocks. The C worker (fastsimplexordatastore.c:137-163) walks all 8 * len bits and reads past the store for a set surplus bit; `BlocksReadAsWritten` and `SurplusBitReadsPastStore` state that behaviour (see Findings).
- XorTable.Table.ProduceXorFromBitstring ignores bits past the last block, because it runs the corrected worker. The C code reads past the store for them.
- XorStore.XORDatastore.ProduceXorFromBitstring ignores bits past the last block for the same reason.
- PasswordStore.PolyPasswordHasher.CreateAccount does not promise that share numbers stay below next after a share loop that raises midway. The source keeps the entries already made without advancing the counter; only uniqueness is stated there.
- PasswordStore.ShieldedEntryRejects and RubyStore.ShieldedEntryRejects assume that encryption under the key is one-to-one. AES is a permutation of blocks, but the cipher is an arbitrary function in this model. The Ruby lemma says nothing about an empty ciphertext.
- PasswordStore.AccountsUnlock requires that every entry of a logged-in account was made from that login's password. A login with a wrong password is covered only by the rejection lemmas.
- RubyStore.AccountUnlocks covers one account that holds at least threshold shares. The several-account case is proved for the Python store only.

## Findings

| source | as written | input that shows it | evidently intended | confidence | as-written member | corrected member |
|---|---|---|---|---|---|---|
| python-reference-implementation/polypasswordhasher.py:405-407 | unlock writes a bootstrap account's ciphertext under the misspelt key 'passshash' and sets share number 0, leaving the plain hash and no check bytes in 'passhash' | a bootstrap account, then unlock with isolated_check_bits = 16: every later login of that account cuts 16 bytes off the 32-byte hash and the XOR assertion raises | the entry becomes a shielded entry, ciphertext plus check bytes under 'passhash', so its password still logs in | not executed | PasswordStore.UnlockedBootstrapLoginRaises | PasswordStore.UnlockedBootstrapLoginKept |
| python-reference-implementation/polypasswordhasher.py:181 | on load the counter is the largest stored share number added to itself | a store whose largest share number is 128: the counter is 256, so even a 0-share account is refused | the counter is one past the largest stored share number, as in the Ruby store | not executed | PasswordStore.LoadedNextAsWrittenSkips | PasswordStore.LoadedNextLeast |
| python-reference-implementation/fastsimplexordatastore.c:137-163 | the worker walks all 8 * len(bitstring) bits and XORs in block k for every set bit k, even past the last block | 10 blocks, bitstring [0x00, 0x20] (the 2 bytes the wrapper demands): bit 10 is set and block 10 is read past the end of the store | bits past the last block are ignored, as the wrapper's documentation says | not executed | XorTable.SurplusBitReadsPastStore | XorTable.SurplusBitsIgnored |
| python-reference-implementation/fastsimplexordatastore.py:29 | do_xor calls the C do_xor with two strings where the C side parses two strings and a length | do_xor("ab", "cd") raises instead of returning "\x02\x06" | pass the length, so equal strings give their byte-wise XOR | not executed | XorStore.DoXorNeverXors | XorStore.DoXorCorrected |
