/** The administration routes that write: `DELETE /admin/usuarios/:id` (a
    cascading delete run as one database transaction) and
    `PUT /admin/usuarios/toggle-admin/:id` (set another user's admin flag). */
module Admin {
  import opened Common
  import opened Text
  import opened Store

  function DropUserMovs(rows: seq<Movimentacao>, id: int): (r: seq<Movimentacao>)
    ensures forall m :: m in r <==> m in rows && m.usuarioId != id
    ensures |r| <= |rows|
  {
    if |rows| == 0 then []
    else if rows[0].usuarioId == id then DropUserMovs(rows[1..], id)
    else [rows[0]] + DropUserMovs(rows[1..], id)
  }

  function DropUserMetas(rows: seq<Meta>, id: int): (r: seq<Meta>)
    ensures forall g :: g in r <==> g in rows && g.usuarioId != id
    ensures |r| <= |rows|
  {
    if |rows| == 0 then []
    else if rows[0].usuarioId == id then DropUserMetas(rows[1..], id)
    else [rows[0]] + DropUserMetas(rows[1..], id)
  }

  function DropUser(rows: seq<Usuario>, id: int): (r: seq<Usuario>)
    ensures forall u :: u in r <==> u in rows && u.id != id
    ensures |r| <= |rows|
  {
    if |rows| == 0 then []
    else if rows[0].id == id then DropUser(rows[1..], id)
    else [rows[0]] + DropUser(rows[1..], id)
  }

  predicate UserExists(db: Db, id: int)
  {
    exists k :: 0 <= k < |db.usuarios| && db.usuarios[k].id == id
  }

  /** Statements of the delete transaction, in the order they run. A
      database error may interrupt any of them. `Rollback` is the rollback
      that runs when no user row was deleted; `Commit` runs only when one
      was. */
  datatype Step = Begin | DeleteMovs | DeleteMetas | DeleteUsuario | Rollback | Commit

  /** The working state inside the transaction after the three deletes. */
  function Cascade(db: Db, id: int): Db
  {
    db.(movimentacoes := DropUserMovs(db.movimentacoes, id),
        metas := DropUserMetas(db.metas, id),
        usuarios := DropUser(db.usuarios, id))
  }

  /** `DELETE /admin/usuarios/:id`. The path is read with `parseInt` (400 when
      that gives `NaN`); `fault` is the statement a database error interrupts,
      if any and if that statement runs, and an id outside the 32-bit range
      makes the first delete fail. The three deletes run inside one
      transaction. When no user row was deleted the transaction is rolled
      back before any `COMMIT` (404); when that rollback itself fails, the
      error reaches the catch block, whose own rollback ends the transaction
      (500). On any other fault (500) it is rolled back as well, and either
      way the database is as before. Otherwise it commits, and the user,
      their movements and their goals are gone together, with every other
      row kept. */
  function DeleteUser(db: Db, idParam: string, fault: Option<Step>): (w: Write)
    ensures ParseInt(idParam).None? <==> w.status == BAD_REQUEST
    ensures w.status != OK ==> w.db == db
    ensures w.status == OK <==>
              ParseInt(idParam).Some? && (fault.None? || fault == Some(Rollback)) &&
              INT4_MIN <= ParseInt(idParam).value <= INT4_MAX &&
              UserExists(db, ParseInt(idParam).value)
    ensures w.status == NOT_FOUND <==>
              ParseInt(idParam).Some? && (fault.None? || fault == Some(Commit)) &&
              INT4_MIN <= ParseInt(idParam).value <= INT4_MAX &&
              !UserExists(db, ParseInt(idParam).value)
    ensures ParseInt(idParam).Some? && !(INT4_MIN <= ParseInt(idParam).value <= INT4_MAX) ==>
              w == Write(INTERNAL_ERROR, db)
    ensures ParseInt(idParam).Some? && fault.Some? && fault != Some(Commit) && fault != Some(Rollback) ==>
              w == Write(INTERNAL_ERROR, db)
    ensures ParseInt(idParam).Some? && fault == Some(Commit) && UserExists(db, ParseInt(idParam).value) ==>
              w == Write(INTERNAL_ERROR, db)
    ensures ParseInt(idParam).Some? && fault == Some(Rollback) && !UserExists(db, ParseInt(idParam).value) ==>
              w == Write(INTERNAL_ERROR, db)
    ensures w.status == OK ==>
              var id := ParseInt(idParam).value;
              && w.db.categorias == db.categorias
              && w.db.nextMetaId == db.nextMetaId
              && (forall u :: u in w.db.usuarios <==> u in db.usuarios && u.id != id)
              && (forall m :: m in w.db.movimentacoes <==> m in db.movimentacoes && m.usuarioId != id)
              && (forall g :: g in w.db.metas <==> g in db.metas && g.usuarioId != id)
  {
    match ParseInt(idParam)
    case None => Write(BAD_REQUEST, db)
    case Some(id) =>
      if fault.Some? && fault != Some(Commit) && fault != Some(Rollback) then
        Write(INTERNAL_ERROR, db)  // ROLLBACK in the catch block
      else if !(INT4_MIN <= id <= INT4_MAX) then Write(INTERNAL_ERROR, db)
      else
        var tx := Cascade(db, id);
        if |tx.usuarios| == |db.usuarios| then
          assert !UserExists(db, id) by {
            NoDropMeansAbsent(db.usuarios, id);
          }
          // ROLLBACK: the deletes of the other tables are undone; if it
          // fails, the catch block rolls back and answers 500
          if fault == Some(Rollback) then Write(INTERNAL_ERROR, db) else Write(NOT_FOUND, db)
        else
          assert UserExists(db, id) by {
            if !UserExists(db, id) { AbsentMeansNoDrop(db.usuarios, id); }
          }
          if fault == Some(Commit) then Write(INTERNAL_ERROR, db)  // the COMMIT fails
          else Write(OK, tx)  // COMMIT
  }

  lemma {:induction false} NoDropMeansAbsent(rows: seq<Usuario>, id: int)
    requires |DropUser(rows, id)| == |rows|
    ensures forall k :: 0 <= k < |rows| ==> rows[k].id != id
  {
    if |rows| > 0 {
      NoDropMeansAbsent(rows[1..], id);
      assert forall k :: 1 <= k < |rows| ==> rows[k] == rows[1..][k - 1];
    }
  }

  lemma {:induction false} AbsentMeansNoDrop(rows: seq<Usuario>, id: int)
    requires forall k :: 0 <= k < |rows| ==> rows[k].id != id
    ensures DropUser(rows, id) == rows
  {
    if |rows| > 0 {
      assert forall k :: 0 <= k < |rows[1..]| ==> rows[1..][k] == rows[k + 1];
      AbsentMeansNoDrop(rows[1..], id);
      assert [rows[0]] + rows[1..] == rows;
    }
  }

  /** All or nothing: whatever happens, the database afterwards is either the
      one before or the one in which the whole cascade took effect. */
  lemma DeleteUserAllOrNothing(db: Db, idParam: string, fault: Option<Step>)
    ensures var w := DeleteUser(db, idParam, fault);
            w.db == db || (ParseInt(idParam).Some? && w.db == Cascade(db, ParseInt(idParam).value))
    ensures var w := DeleteUser(db, idParam, fault);
            w.status == OK ==>
              && (forall u :: u in w.db.usuarios ==> u.id != ParseInt(idParam).value)
              && (forall m :: m in w.db.movimentacoes ==> m.usuarioId != ParseInt(idParam).value)
              && (forall g :: g in w.db.metas ==> g.usuarioId != ParseInt(idParam).value)
  {
  }

  /** The cascade keeps the tables well formed. */
  lemma DeleteUserPreservesWellFormed(db: Db, idParam: string, fault: Option<Step>)
    requires WellFormed(db)
    ensures WellFormed(DeleteUser(db, idParam, fault).db)
  {
    var w := DeleteUser(db, idParam, fault);
    if w.status == OK {
      var id := ParseInt(idParam).value;
      assert w.db == Cascade(db, id);
      assert UniqueUserIds(db.usuarios);
      SubseqUniqueUsers(db.usuarios, id);
      assert UniqueUserIds(w.db.usuarios);
      SubseqUniqueMovs(db.movimentacoes, id);
      SubseqMetas(db.metas, id);
    }
  }

  lemma {:induction false} SubseqUniqueUsers(rows: seq<Usuario>, id: int)
    requires UniqueUserIds(rows)
    ensures UniqueUserIds(DropUser(rows, id))
  {
    if |rows| > 0 {
      assert rows == [rows[0]] + rows[1..];
      UniqueUserIdsCons(rows[0], rows[1..]);
      SubseqUniqueUsers(rows[1..], id);
      if rows[0].id != id {
        UniqueUserIdsCons(rows[0], DropUser(rows[1..], id));
      }
    }
  }

  lemma {:induction false} SubseqUniqueMovs(rows: seq<Movimentacao>, id: int)
    requires UniqueMovIds(rows)
    ensures UniqueMovIds(DropUserMovs(rows, id))
  {
    if |rows| > 0 {
      assert rows == [rows[0]] + rows[1..];
      UniqueMovIdsCons(rows[0], rows[1..]);
      SubseqUniqueMovs(rows[1..], id);
      if rows[0].usuarioId != id {
        UniqueMovIdsCons(rows[0], DropUserMovs(rows[1..], id));
      }
    }
  }

  /** Goal ids stay unique, below the sequence, and one per user and category. */
  lemma {:induction false} SubseqMetas(rows: seq<Meta>, id: int)
    requires GoalsKeyed(rows)
    ensures GoalsKeyed(DropUserMetas(rows, id))
  {
    if |rows| > 0 {
      var x, rest := rows[0], rows[1..];
      assert rows == [x] + rest;
      GoalsKeyedCons(x, rest);
      SubseqMetas(rest, id);
      var tail := DropUserMetas(rest, id);
      if x.usuarioId != id {
        assert DropUserMetas(rows, id) == [x] + tail;
        GoalsKeyedCons(x, tail);
      } else {
        assert DropUserMetas(rows, id) == tail;
      }
    }
  }

  // ---------------------------------------------------------------------------
  // Admin flag
  // ---------------------------------------------------------------------------

  function SetAdmin(rows: seq<Usuario>, id: int, isAdmin: bool): (r: seq<Usuario>)
    ensures |r| == |rows|
    ensures forall k :: 0 <= k < |rows| ==>
              r[k] == if rows[k].id == id then rows[k].(isAdmin := isAdmin) else rows[k]
  {
    seq(|rows|, k requires 0 <= k < |rows| =>
      if rows[k].id == id then rows[k].(isAdmin := isAdmin) else rows[k])
  }

  /** `PUT /admin/usuarios/toggle-admin/:id` by the administrator `caller`.
      When `parseInt` of the path equals the caller's own id the answer is
      403 and nothing is written; otherwise the path goes to the database as
      text (500 when it is not an integer), 404 when no user has that id, and
      else only that user's admin flag takes the requested value. */
  function ToggleAdmin(db: Db, caller: int, idParam: string, isAdmin: bool): (w: Write)
    ensures ParseInt(idParam) == Some(caller) <==> w.status == FORBIDDEN
    ensures w.status != OK ==> w.db == db
    ensures w.status == OK <==>
              ParseInt(idParam) != Some(caller) && PgInt(idParam).Some? && UserExists(db, PgInt(idParam).value)
    ensures ParseInt(idParam) != Some(caller) && PgInt(idParam).None? ==> w == Write(INTERNAL_ERROR, db)
    ensures ParseInt(idParam) != Some(caller) && PgInt(idParam).Some? && !UserExists(db, PgInt(idParam).value) ==>
              w.status == NOT_FOUND
    ensures w.status == OK ==>
              && w.db == db.(usuarios := w.db.usuarios)
              && |w.db.usuarios| == |db.usuarios|
              && forall k :: 0 <= k < |db.usuarios| ==>
                   && w.db.usuarios[k].id == db.usuarios[k].id
                   && w.db.usuarios[k].nome == db.usuarios[k].nome
                   && w.db.usuarios[k].email == db.usuarios[k].email
                   && w.db.usuarios[k].isAdmin ==
                        if db.usuarios[k].id == PgInt(idParam).value then isAdmin else db.usuarios[k].isAdmin
  {
    if ParseInt(idParam) == Some(caller) then Write(FORBIDDEN, db)
    else
      match PgInt(idParam)
      case None => Write(INTERNAL_ERROR, db)
      case Some(id) =>
        if !UserExists(db, id) then Write(NOT_FOUND, db)
        else Write(OK, db.(usuarios := SetAdmin(db.usuarios, id, isAdmin)))
  }

  /** An administrator addressing their own id, as the client renders it,
      is refused whatever flag is asked for. */
  lemma ToggleAdminSelfForbidden(db: Db, caller: int, isAdmin: bool)
    ensures ToggleAdmin(db, caller, ShowInt(caller), isAdmin) == Write(FORBIDDEN, db)
  {
    ParseIntShowInt(caller);
  }

  /** Setting another user's flag, addressed by the decimal text of their
      id, succeeds; setting it back to its old value then succeeds too and
      restores the database. */
  lemma ToggleAdminUndo(db: Db, caller: int, isAdmin: bool, k: int)
    requires UniqueUserIds(db.usuarios)
    requires 0 <= k < |db.usuarios| && db.usuarios[k].id != caller
    requires INT4_MIN <= db.usuarios[k].id <= INT4_MAX
    ensures var idParam := ShowInt(db.usuarios[k].id);
            var w1 := ToggleAdmin(db, caller, idParam, isAdmin);
            && w1.status == OK
            && ToggleAdmin(w1.db, caller, idParam, db.usuarios[k].isAdmin) == Write(OK, db)
  {
    var id := db.usuarios[k].id;
    ParseIntShowInt(id);
    PgIntShowInt(id);
    ToggleBack(db, caller, ShowInt(id), isAdmin, k);
  }

  /** The same round trip for any path text the database reads as that
      user's id and `parseInt` does not read as the caller's. */
  lemma ToggleBack(db: Db, caller: int, idParam: string, isAdmin: bool, k: int)
    requires UniqueUserIds(db.usuarios)
    requires 0 <= k < |db.usuarios| && PgInt(idParam) == Some(db.usuarios[k].id)
    requires ParseInt(idParam) != Some(caller)
    ensures var w1 := ToggleAdmin(db, caller, idParam, isAdmin);
            && w1.status == OK
            && ToggleAdmin(w1.db, caller, idParam, db.usuarios[k].isAdmin) == Write(OK, db)
  {
    var id := db.usuarios[k].id;
    assert UserExists(db, id);
    var db1 := ToggleAdmin(db, caller, idParam, isAdmin).db;
    assert db1.usuarios[k].id == id;
    var w2 := ToggleAdmin(db1, caller, idParam, db.usuarios[k].isAdmin);
    assert w2.status == OK;
    assert w2.db.usuarios == db.usuarios by {
      forall j | 0 <= j < |db.usuarios| ensures w2.db.usuarios[j] == db.usuarios[j] {
        if db.usuarios[j].id == id {
          assert j == k;
        }
      }
    }
  }

  /** Changing an admin flag keeps the tables well formed. */
  lemma ToggleAdminPreservesWellFormed(db: Db, caller: int, idParam: string, isAdmin: bool)
    requires WellFormed(db)
    ensures WellFormed(ToggleAdmin(db, caller, idParam, isAdmin).db)
  {
  }
}
