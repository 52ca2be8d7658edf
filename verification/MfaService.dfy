/** The second-factor service with its repositories as objects: rentivo/services/mfa_service.py
    and the repositories it writes. Every method is proved to do what Mfa says of it. */
module MfaService {
  import opened Mfa
  import opened Wrappers

  class TotpRepository {
    var rows: map<int, Totp>

    constructor ()
      ensures rows == map[]
    {
      rows := map[];
    }

    method GetByUserId(u: int) returns (totp: Option<Totp>)
      ensures totp == if u in rows then Some(rows[u]) else None
    {
      totp := if u in rows then Some(rows[u]) else None;
    }

    /** The user's row must not exist: user_id is unique. */
    method Create(u: int, totp: Totp)
      requires u !in rows
      modifies this
      ensures rows == old(rows)[u := totp]
    {
      rows := rows[u := totp];
    }

    method SetConfirmed(u: int)
      modifies this
      ensures rows == if u in old(rows) then old(rows)[u := old(rows)[u].(confirmed := true)] else old(rows)
    {
      if u in rows {
        rows := rows[u := rows[u].(confirmed := true)];
      }
    }

    method DeleteByUserId(u: int)
      modifies this
      ensures rows == map x | x in old(rows) && x != u :: old(rows)[x]
    {
      rows := rows - {u};
    }
  }

  class RecoveryCodeRepository {
    var rows: seq<Code>
    var nextId: int

    constructor ()
      ensures rows == [] && nextId == 0
    {
      rows, nextId := [], 0;
    }

    method CreateBatch(u: int, hashes: seq<string>)
      modifies this
      ensures rows == old(rows) + NewCodes(u, old(nextId), hashes) && nextId == old(nextId) + |hashes|
    {
      ghost var first := nextId;
      for i := 0 to |hashes|
        invariant rows == old(rows) + NewCodes(u, first, hashes[..i]) && nextId == first + i
      {
        assert NewCodes(u, first, hashes[..i + 1]) == NewCodes(u, first, hashes[..i]) + [Code(first + i, u, hashes[i], false)];
        rows := rows + [Code(nextId, u, hashes[i], false)];
        nextId := nextId + 1;
      }
      assert hashes[..|hashes|] == hashes;
    }

    method ListUnusedByUser(u: int) returns (unused: seq<Code>)
      ensures unused == Unused(rows, u)
    {
      unused := [];
      for i := 0 to |rows|
        invariant unused == Unused(rows[..i], u)
      {
        assert rows[..i + 1][..i] == rows[..i];
        if rows[i].user == u && !rows[i].used {
          unused := unused + [rows[i]];
        }
      }
      assert rows[..|rows|] == rows;
    }

    method MarkCodeUsed(id: int)
      modifies this`rows
      ensures rows == MarkUsed(old(rows), id)
    {
      rows := MarkUsed(rows, id);
    }

    method DeleteAllByUser(u: int)
      modifies this`rows
      ensures rows == WithoutUser(old(rows), u)
    {
      var kept := [];
      for i := 0 to |rows|
        invariant rows == old(rows) && kept == WithoutUser(rows[..i], u)
      {
        assert rows[..i + 1][..i] == rows[..i];
        if rows[i].user != u {
          kept := kept + [rows[i]];
        }
      }
      assert rows[..|rows|] == rows;
      rows := kept;
    }
  }

  class PasskeyRepository {
    var rows: seq<Passkey>
    var nextId: int

    constructor ()
      ensures rows == [] && nextId == 0
    {
      rows, nextId := [], 0;
    }

    method Create(passkey: Passkey, uuid: string)
      modifies this
      ensures rows == old(rows) + [passkey.(id := old(nextId), uuid := uuid)] && nextId == old(nextId) + 1
    {
      rows := rows + [passkey.(id := nextId, uuid := uuid)];
      nextId := nextId + 1;
    }

    method ListByUser(u: int) returns (own: seq<Passkey>)
      ensures own == PasskeysOf(rows, u)
    {
      own := [];
      for i := 0 to |rows|
        invariant own == PasskeysOf(rows[..i], u)
      {
        assert rows[..i + 1][..i] == rows[..i];
        if rows[i].user == u {
          own := own + [rows[i]];
        }
      }
      assert rows[..|rows|] == rows;
    }

    method Delete(id: int)
      modifies this`rows
      ensures rows == WithoutPasskey(old(rows), id)
    {
      var kept := [];
      for i := 0 to |rows|
        invariant rows == old(rows) && kept == WithoutPasskey(rows[..i], id)
      {
        assert rows[..i + 1][..i] == rows[..i];
        if rows[i].id != id {
          kept := kept + [rows[i]];
        }
      }
      assert rows[..|rows|] == rows;
      rows := kept;
    }

    method UpdateSignCount(id: int, count: int)
      modifies this`rows
      ensures rows == SetSignCount(Tables(map[], [], 0, old(rows), nextId), id, count).passkeys
    {
      rows := SetSignCount(Tables(map[], [], 0, rows, nextId), id, count).passkeys;
    }
  }

  /** What the service reads of the organizations: the members of those that enforce MFA. */
  class OrgRepository {
    var enforced: set<int>

    constructor ()
      ensures enforced == {}
    {
      enforced := {};
    }

    method SetEnforced(users: set<int>)
      modifies this
      ensures enforced == users
    {
      enforced := users;
    }

    method UserHasEnforcingOrg(u: int) returns (yes: bool)
      ensures yes == (u in enforced)
    {
      yes := u in enforced;
    }
  }

  class MfaService {
    const totpRepo: TotpRepository
    const recoveryRepo: RecoveryCodeRepository
    const passkeyRepo: PasskeyRepository
    const orgRepo: OrgRepository
    const crypto: Crypto

    constructor (crypto: Crypto)
      ensures this.crypto == crypto && View() == EMPTY && orgRepo.enforced == {}
      ensures fresh(totpRepo) && fresh(recoveryRepo) && fresh(passkeyRepo) && fresh(orgRepo)
    {
      this.crypto := crypto;
      totpRepo := new TotpRepository();
      recoveryRepo := new RecoveryCodeRepository();
      passkeyRepo := new PasskeyRepository();
      orgRepo := new OrgRepository();
    }

    function View(): Tables
      reads totpRepo, recoveryRepo, passkeyRepo
    {
      Tables(totpRepo.rows, recoveryRepo.rows, recoveryRepo.nextId, passkeyRepo.rows, passkeyRepo.nextId)
    }

    // ---- TOTP ----

    method Begin(u: int, secret: string) returns (error: Option<Error>)
      modifies totpRepo
      ensures OrElse(SetupTotp(old(View()), u, secret), old(View())) == View()
      ensures error.None? <==> SetupTotp(old(View()), u, secret).Success?
      ensures error.Some? ==> SetupTotp(old(View()), u, secret) == Failure(error.value)
    {
      var existing := totpRepo.GetByUserId(u);
      if existing.Some? && existing.value.confirmed {
        return Some(AlreadyActive);
      }
      if existing.Some? {
        totpRepo.DeleteByUserId(u);
      }
      totpRepo.Create(u, Totp(secret, false));
      error := None;
    }

    /** The random codes and their hashes come from outside, one per round of the loop. */
    method GenerateRecoveryCodes(u: int, random: (int -> string), hash: (int -> string)) returns (codes: seq<string>)
      modifies recoveryRepo
      ensures View() == ReplaceCodes(old(View()), u, seq(RECOVERY_CODE_COUNT, hash))
      ensures codes == seq(RECOVERY_CODE_COUNT, random)
    {
      recoveryRepo.DeleteAllByUser(u);
      codes := [];
      var hashes := [];
      for i := 0 to RECOVERY_CODE_COUNT
        invariant codes == seq(i, random) && hashes == seq(i, hash)
      {
        codes := codes + [random(i)];
        hashes := hashes + [hash(i)];
      }
      recoveryRepo.CreateBatch(u, hashes);
    }

    method ConfirmSetup(u: int, code: string, at: int, random: (int -> string), hash: (int -> string))
      returns (codes: Result<seq<string>, Error>)
      modifies totpRepo, recoveryRepo
      ensures var r := ConfirmTotp(crypto, old(View()), u, code, at, seq(RECOVERY_CODE_COUNT, hash));
              && View() == OrElse(r, old(View()))
              && (codes.Success? ==> r.Success? && codes.value == seq(RECOVERY_CODE_COUNT, random))
              && (codes.Failure? ==> r == Failure(codes.error))
    {
      var totp := totpRepo.GetByUserId(u);
      if totp.None? {
        return Failure(NoSetup);
      }
      if totp.value.confirmed {
        return Failure(AlreadyActive);
      }
      if !crypto.totpValid(totp.value.secret, code, at) {
        return Failure(WrongCode);
      }
      totpRepo.SetConfirmed(u);
      var shown := GenerateRecoveryCodes(u, random, hash);
      codes := Success(shown);
    }

    method CheckTotp(u: int, code: string, at: int) returns (ok: bool)
      ensures ok == VerifyTotp(crypto, View(), u, code, at)
    {
      var totp := totpRepo.GetByUserId(u);
      if totp.None? || !totp.value.confirmed {
        return false;
      }
      ok := crypto.totpValid(totp.value.secret, code, at);
    }

    method TurnOff(u: int)
      modifies totpRepo, recoveryRepo
      ensures View() == DisableTotp(old(View()), u)
    {
      totpRepo.DeleteByUserId(u);
      recoveryRepo.DeleteAllByUser(u);
    }

    // ---- Recovery codes ----

    method RegenerateBatch(u: int, random: (int -> string), hash: (int -> string))
      returns (codes: Result<seq<string>, Error>)
      modifies recoveryRepo
      ensures var r := RegenerateCodes(old(View()), u, seq(RECOVERY_CODE_COUNT, hash));
              && View() == OrElse(r, old(View()))
              && (codes.Success? ==> r.Success? && codes.value == seq(RECOVERY_CODE_COUNT, random))
              && (codes.Failure? ==> r == Failure(codes.error))
    {
      var totp := totpRepo.GetByUserId(u);
      if totp.None? || !totp.value.confirmed {
        return Failure(NotActive);
      }
      var shown := GenerateRecoveryCodes(u, random, hash);
      codes := Success(shown);
    }

    method CheckRecoveryCode(u: int, code: string) returns (ok: bool)
      modifies recoveryRepo
      ensures ok == VerifiesRecovery(crypto, old(View()), u, code)
      ensures View() == UseRecovery(crypto, old(View()), u, code)
    {
      var unused := recoveryRepo.ListUnusedByUser(u);
      for i := 0 to |unused|
        invariant View() == old(View())
        invariant FirstMatch(crypto, unused, code) == FirstMatch(crypto, unused[i..], code)
      {
        assert unused[i..][1..] == unused[i + 1..];
        if crypto.codeMatches(code, unused[i].hash) {
          recoveryRepo.MarkCodeUsed(unused[i].id);
          return true;
        }
      }
      ok := false;
    }

    // ---- Passkeys and status ----

    method AddPasskey(passkey: Passkey, uuid: string)
      modifies passkeyRepo
      ensures View() == RegisterPasskey(old(View()), passkey, uuid)
    {
      passkeyRepo.Create(passkey, uuid);
    }

    method RemovePasskey(uuid: string, u: int) returns (error: Option<Error>)
      modifies passkeyRepo
      ensures View() == OrElse(DeletePasskey(old(View()), uuid, u), old(View()))
      ensures error.None? <==> DeletePasskey(old(View()), uuid, u).Success?
    {
      var passkey := FindUuid(passkeyRepo.rows, uuid);
      if passkey.None? || passkey.value.user != u {
        return Some(NotFound);
      }
      passkeyRepo.Delete(passkey.value.id);
      error := None;
    }

    method HasAny(u: int) returns (yes: bool)
      ensures yes == HasAnyMfa(View(), u)
    {
      var totp := totpRepo.GetByUserId(u);
      if totp.Some? && totp.value.confirmed {
        return true;
      }
      var passkeys := passkeyRepo.ListByUser(u);
      yes := |passkeys| > 0;
    }

    method UserRequiresSetup(u: int) returns (yes: bool)
      ensures yes == RequiresSetup(View(), orgRepo.enforced, u)
    {
      var any := HasAny(u);
      if any {
        return false;
      }
      yes := orgRepo.UserHasEnforcingOrg(u);
    }
  }
}
