/**
 The session operations on the tables themselves, each run while no other call is in flight: what they do to the
 rows and the vault, and when they keep the two in step.
 */
module SessionBroker {
  import opened Option
  import opened SessionVault
  import opened SessionTheorems

  /** A brokered session has an entry exactly while it is active, and it is the one its launch stored. */
  ghost predicate InStep(rows: Rows, vault: Vault) {
    Supplied(rows, vault) && forall id | Brokered(id) :: SecretOf(id).value in vault <==> Active(rows, id)
  }

  function EndAll(rows: Rows, ids: set<string>): Rows {
    map id | id in rows :: if id in ids then rows[id].(ended := true) else rows[id]
  }

  predicate Belongs(name: string, ids: set<string>) {
    exists id :: id in ids && SecretOf(id) == Some(name)
  }

  function DropSecrets(vault: Vault, ids: set<string>): Vault {
    map name | name in vault && !Belongs(name, ids) :: vault[name]
  }

  lemma EndOneMore(rows: Rows, vault: Vault, ids: set<string>, id: string)
    requires Active(rows, id) && id !in ids
    ensures Active(EndAll(rows, ids), id)
    ensures EndRow(EndAll(rows, ids), id) == EndAll(rows, ids + {id})
    ensures (if SecretOf(id).Some? then DeleteSecret(DropSecrets(vault, ids), SecretOf(id).value) else DropSecrets(vault, ids))
            == DropSecrets(vault, ids + {id})
  {
    forall name ensures Belongs(name, ids + {id}) <==> Belongs(name, ids) || SecretOf(id) == Some(name) {
      if Belongs(name, ids) {
        var d :| d in ids && SecretOf(d) == Some(name);
        assert d in ids + {id};
      }
      if SecretOf(id) == Some(name) {
        assert id in ids + {id};
      }
    }
  }

  lemma EndNone(rows: Rows, vault: Vault)
    ensures EndAll(rows, {}) == rows && DropSecrets(vault, {}) == vault
  {
  }

  lemma DroppedOthers(rows: Rows, vault: Vault, ids: set<string>, id: string)
    requires Brokered(id)
    ensures SecretOf(id).value in DropSecrets(vault, ids) <==> SecretOf(id).value in vault && id !in ids
  {
    if Belongs(SecretOf(id).value, ids) {
      var d :| d in ids && SecretOf(d) == SecretOf(id);
      SecretsAreDistinct(d, id);
    }
  }

  /** Ending any active sessions keeps rows and vault in step. */
  lemma EndingKeepsStep(rows: Rows, vault: Vault, ids: set<string>)
    requires InStep(rows, vault) && forall id | id in ids :: Active(rows, id)
    ensures InStep(EndAll(rows, ids), DropSecrets(vault, ids))
  {
    forall id | Brokered(id)
      ensures SecretOf(id).value in DropSecrets(vault, ids) <==> Active(EndAll(rows, ids), id)
    {
      DroppedOthers(rows, vault, ids, id);
    }
  }

  function AddSecret(vault: Vault, l: Launch): Vault {
    vault[NameOf(l) := l.creds]
  }

  /** Storing and taking back leaves the vault without the entry, even if it had one before. */
  lemma RollBackKeepsStep(rows: Rows, vault: Vault, l: Launch)
    requires InStep(rows, vault) && WellFormed(l)
    ensures InStep(rows, DeleteSecret(AddSecret(vault, l), NameOf(l))) <==> !Active(rows, l.id)
  {
    var after := DeleteSecret(AddSecret(vault, l), NameOf(l));
    NameIsSecret(l);
    forall id | Brokered(id) && id != l.id
      ensures SecretOf(id).value in after <==> SecretOf(id).value in vault
    {
      if SecretOf(id).value == NameOf(l) { SecretsAreDistinct(id, l.id); }
    }
    if Active(rows, l.id) {
      assert SecretOf(l.id).value !in after;
    } else {
      assert Supplied(rows, after);
    }
  }

  lemma InsertKeepsStep(rows: Rows, vault: Vault, l: Launch)
    requires InStep(rows, vault) && WellFormed(l) && l.id !in rows
    ensures InStep(rows[l.id := NewRow(l)], AddSecret(vault, l))
  {
    var rows', vault' := rows[l.id := NewRow(l)], AddSecret(vault, l);
    NameIsSecret(l);
    forall id | Brokered(id) && id != l.id
      ensures SecretOf(id).value in vault' <==> SecretOf(id).value in vault
      ensures SecretOf(id).value in vault ==> vault'[SecretOf(id).value] == vault[SecretOf(id).value]
    {
      if SecretOf(id).value == NameOf(l) { SecretsAreDistinct(id, l.id); }
    }
  }

  class Broker {
    var rows: Rows
    var vault: Vault

    constructor ()
      ensures InStep(rows, vault) && rows == map[] && vault == map[]
    {
      rows, vault := map[], map[];
    }

    method End(id: string) returns (ended: bool)
      modifies this
      ensures ended == (id in old(rows) && !old(rows)[id].ended)
      ensures rows == EndRow(old(rows), id) == if ended then old(rows)[id := old(rows)[id].(ended := true)] else old(rows)
      ensures vault == if ended && SecretOf(id).Some? then DeleteSecret(old(vault), SecretOf(id).value) else old(vault)
    {
      if !Active(rows, id) {
        return false;
      }
      rows := EndRow(rows, id);
      if HasPrefix(id, "web-") {
        vault := DeleteSecret(vault, WebVaultSecretName(id));
      } else if HasPrefix(id, "rdp-") {
        vault := DeleteSecret(vault, "_rdp_session_" + id);
      } else if HasPrefix(id, "db-") {
        vault := DeleteSecret(vault, DbVaultSecretName(id));
      }
      return true;
    }

    /** Exactly the open sessions of the user on the target are ended, and exactly their secrets deleted. */
    method EndActiveForUserTarget(user: int, target: int, protocol: string)
      modifies this
      ensures rows == EndAll(old(rows), OpenSessions(old(rows), user, target, protocol))
      ensures vault == DropSecrets(old(vault), OpenSessions(old(rows), user, target, protocol))
      ensures InStep(old(rows), old(vault)) ==> InStep(rows, vault)
      ensures rows.Keys == old(rows).Keys
      ensures forall id | id in old(rows) ::
                var row := old(rows)[id];
                rows[id] == if row.user == user && row.target == target && (protocol == "" || row.protocol == protocol)
                            then row.(ended := true) else row
    {
      var found := OpenSessions(rows, user, target, protocol);
      if InStep(rows, vault) {
        EndingKeepsStep(rows, vault, found);
      }
      EndNone(rows, vault);
      var left := found;
      while left != {}
        invariant left <= found
        invariant rows == EndAll(old(rows), found - left) && vault == DropSecrets(old(vault), found - left)
        decreases left
      {
        var id :| id in left;
        EndOneMore(old(rows), old(vault), found - left, id);
        assert found - (left - {id}) == (found - left) + {id};
        var _ := End(id);
        left := left - {id};
      }
      assert found - {} == found;
    }

    /** A launch whose insert may fail.  It keeps rows and vault in step exactly when its id is not that of a
        session that stays active: otherwise its rollback deletes that session's credentials. */
    method Launch(l: Launch, insertFails: bool) returns (ok: bool)
      requires WellFormed(l)
      modifies this
      ensures ok == (!insertFails && l.id !in old(rows))
      ensures var ended := EndAll(old(rows), OpenSessions(old(rows), l.user, l.target, l.protocol));
              && rows == (if ok then ended[l.id := NewRow(l)] else ended)
              && (InStep(old(rows), old(vault)) ==> (InStep(rows, vault) <==> !Active(ended, l.id)))
      ensures ok ==> OpenSessions(rows, l.user, l.target, l.protocol) == {l.id} && NameOf(l) in vault && vault[NameOf(l)] == l.creds
    {
      EndActiveForUserTarget(l.user, l.target, l.protocol);
      ghost var ended := rows;
      if InStep(old(rows), old(vault)) {
        RollBackKeepsStep(rows, vault, l);
        if l.id !in rows { InsertKeepsStep(rows, vault, l); }
      }
      vault := AddSecret(vault, l);
      if insertFails || l.id in rows {
        vault := DeleteSecret(vault, NameOf(l));
        return false;
      }
      rows := rows[l.id := NewRow(l)];
      return true;
    }
  }
}
