/** The protected routes put together: each request passes the middleware
    chain of its route and then reaches its handler with the caller's id. */
module Api {
  import opened Common
  import opened Store
  import opened Auth
  import opened Ledger
  import opened Reports
  import opened Goals
  import opened Admin

  /** A request to one of the modelled routes, with its path and body values. */
  datatype Route =
    | PutMovimentacao(id: string, movimento: MovBody)
    | DeleteMovimentacaoRoute(id: string)
    | GetMovimentacaoRoute(id: string)
    | ListMovimentacoesRoute(dataInicial: Option<Date>, dataFinal: Option<Date>)
    | GetResumo(dataInicial: Option<Date>, dataFinal: Option<Date>)
    | GetComparativo(mesAtual: DateRange, mesAnterior: DateRange)
    | PostMeta(meta: MetaBody)
    | GetMetasStatus
    | DeleteMetaRoute(id: string)
    | DeleteUsuarioRoute(id: string, fault: Option<Step>)
    | ToggleAdminRoute(id: string, isAdmin: bool)

  /** Routes behind `adminOnly` as well as `authenticateToken`. */
  predicate IsAdminRoute(r: Route)
  {
    r.DeleteUsuarioRoute? || r.ToggleAdminRoute?
  }

  /** Routes that only read. */
  predicate IsRead(r: Route)
  {
    r.GetMovimentacaoRoute? || r.ListMovimentacoesRoute? || r.GetResumo? ||
    r.GetComparativo? || r.GetMetasStatus?
  }

  function StatusOf<T>(r: Reply<T>): int
  {
    if r.Ok? then OK else r.status
  }

  /** The handler of a route, for an authenticated caller, which acts as
      the caller the verified claims name. Reads leave the database as it
      is, no route writes the categories, and only the administration routes
      touch the users table. */
  function Dispatch(db: Db, claims: Claims, r: Route): (w: Write)
    ensures IsRead(r) ==> w.db == db
    ensures w.db.categorias == db.categorias
    ensures !IsAdminRoute(r) ==> w.db.usuarios == db.usuarios
    ensures r.PutMovimentacao? ==> w == UpdateMovimentacao(db, claims.id, r.id, r.movimento)
    ensures r.DeleteMovimentacaoRoute? ==> w == DeleteMovimentacao(db, claims.id, r.id)
    ensures r.GetMovimentacaoRoute? ==> w.status == StatusOf(GetMovimentacao(db, claims.id, r.id))
    ensures r.GetComparativo? ==>
              w.status == StatusOf(ComparativoRoute(db, claims.id, r.mesAtual, r.mesAnterior))
    ensures r.ListMovimentacoesRoute? || r.GetResumo? || r.GetMetasStatus? ==> w == Write(OK, db)
    ensures r.PostMeta? ==> w == UpsertMeta(db, claims.id, r.meta)
    ensures r.DeleteMetaRoute? ==> w == DeleteMeta(db, claims.id, r.id)
    ensures r.DeleteUsuarioRoute? ==> w == DeleteUser(db, r.id, r.fault)
    ensures r.ToggleAdminRoute? ==> w == ToggleAdmin(db, claims.id, r.id, r.isAdmin)
  {
    if IsRead(r) then Write(ReadStatus(db, claims, r), db) else Apply(db, claims, r)
  }

  /** The status a read route answers with. */
  function ReadStatus(db: Db, claims: Claims, r: Route): int
    requires IsRead(r)
  {
    match r
    case GetMovimentacaoRoute(id) => StatusOf(GetMovimentacao(db, claims.id, id))
    case GetComparativo(mesAtual, mesAnterior) =>
      StatusOf(ComparativoRoute(db, claims.id, mesAtual, mesAnterior))
    case _ => OK
  }

  /** The handler of a route that writes. */
  function Apply(db: Db, claims: Claims, r: Route): (w: Write)
    requires !IsRead(r)
    ensures w.db.categorias == db.categorias
    ensures !IsAdminRoute(r) ==> w.db.usuarios == db.usuarios
  {
    match r
    case PutMovimentacao(id, body) => UpdateMovimentacao(db, claims.id, id, body)
    case DeleteMovimentacaoRoute(id) => DeleteMovimentacao(db, claims.id, id)
    case PostMeta(body) => UpsertMeta(db, claims.id, body)
    case DeleteMetaRoute(id) => DeleteMeta(db, claims.id, id)
    case DeleteUsuarioRoute(id, fault) => DeleteUser(db, id, fault)
    case ToggleAdminRoute(id, isAdmin) => ToggleAdmin(db, claims.id, id, isAdmin)
  }

  /** A request with its `Authorization` header: the middleware chain
      decides, and only a request it lets through reaches the handler. */
  function Handle(db: Db, header: Option<string>, verify: Verifier, r: Route): (w: Write)
    ensures Gate(header, verify, IsAdminRoute(r)).Reject? ==>
              w == Write(Gate(header, verify, IsAdminRoute(r)).status, db)
    ensures Gate(header, verify, IsAdminRoute(r)).Proceed? ==>
              w == Dispatch(db, Gate(header, verify, IsAdminRoute(r)).claims, r)
  {
    match Gate(header, verify, IsAdminRoute(r))
    case Reject(status) => Write(status, db)
    case Proceed(claims) => Dispatch(db, claims, r)
  }

  /** Only a verified administrator changes anything through the
      administration routes; anyone else gets 401 or 403 and no change. */
  lemma AdminRoutesNeedAdmin(db: Db, header: Option<string>, verify: Verifier, r: Route)
    requires IsAdminRoute(r)
    requires BearerToken(header).None? || verify(BearerToken(header).value).None? ||
             !verify(BearerToken(header).value).value.isAdmin
    ensures Handle(db, header, verify, r).db == db
    ensures Handle(db, header, verify, r).status in {UNAUTHORIZED, FORBIDDEN}
  {
  }

  /** Reads never change the database, whoever sends them. */
  lemma ReadsChangeNothing(db: Db, header: Option<string>, verify: Verifier, r: Route)
    requires IsRead(r)
    ensures Handle(db, header, verify, r).db == db
  {
  }

  /** No request, accepted or not, breaks the tables' integrity. */
  lemma HandlePreservesWellFormed(db: Db, header: Option<string>, verify: Verifier, r: Route)
    requires WellFormed(db)
    ensures WellFormed(Handle(db, header, verify, r).db)
  {
    var gate := Gate(header, verify, IsAdminRoute(r));
    if gate.Proceed? {
      DispatchPreservesWellFormed(db, gate.claims, r);
    }
  }

  /** Every handler keeps the tables' integrity. */
  lemma DispatchPreservesWellFormed(db: Db, claims: Claims, r: Route)
    requires WellFormed(db)
    ensures WellFormed(Dispatch(db, claims, r).db)
  {
    match r
    case PutMovimentacao(id, body) => UpdatePreservesWellFormed(db, claims.id, id, body);
    case DeleteMovimentacaoRoute(id) => DeletePreservesWellFormed(db, claims.id, id);
    case PostMeta(body) => UpsertPreservesWellFormed(db, claims.id, body);
    case DeleteMetaRoute(id) => DeleteMetaPreservesWellFormed(db, claims.id, id);
    case DeleteUsuarioRoute(id, fault) => DeleteUserPreservesWellFormed(db, id, fault);
    case ToggleAdminRoute(id, isAdmin) => ToggleAdminPreservesWellFormed(db, claims.id, id, isAdmin);
    case _ =>
  }
}
