/** The Move document (models/move.js): one dated transaction of an account. */
module MoveModel {
  import opened Wrappers
  import opened Clock
  import opened Base

  /** The client-supplied fields. cantidad, categoriaId, conceptoId, nombre and
      tipoMovimientoId are required; fecha is optional, and an absent fecha is None. */
  datatype MoveData = MoveData(
    cantidad: int,
    categoriaId: string,
    conceptoId: string,
    fecha: Option<YearMonth>,
    nombre: string,
    tipoMovimientoId: string)

  datatype Move = Move(id: Id, data: MoveData, stamps: Stamps)

  /** The shape toJSON produces: `_id` renamed to `uid`, every other field kept. */
  datatype MoveJson = MoveJson(uid: Id, data: MoveData, stamps: Stamps)

  /** A move built from client data at `now`: the schema defaults apply. */
  function New(id: Id, data: MoveData, now: Time): (m: Move)
    ensures m.id == id && m.data == data
    ensures m.stamps.Live() && m.stamps.created == now && m.stamps.updated == now
  {
    Move(id, data, Fresh(now))
  }

  /** The pre('save') hook: only updated_at changes, to `now`. */
  function PreSave(m: Move, now: Time): (r: Move)
    ensures r.stamps.updated == now
    ensures r.id == m.id && r.data == m.data
    ensures r.stamps.created == m.stamps.created && r.stamps.deleted == m.stamps.deleted
  {
    m.(stamps := Touch(m.stamps, now))
  }

  /** softDelete: deleted_at becomes `now`; the move itself is kept. */
  function SoftDelete(m: Move, now: Time): (r: Move)
    ensures r.stamps.deleted == Some(now) && !r.stamps.Live() && r.stamps.updated == now
    ensures r.id == m.id && r.data == m.data && r.stamps.created == m.stamps.created
  {
    m.(stamps := MarkDeleted(m.stamps, now))
  }

  /** Soft-deleting again is no error: it re-stamps with the later instant. */
  lemma SoftDeleteRestamps(m: Move, first: Time, second: Time)
    ensures SoftDelete(SoftDelete(m, first), second) == SoftDelete(m, second)
  {
  }

  function ToJson(m: Move): (j: MoveJson)
    ensures j.uid == m.id && FromJson(j) == m
  {
    MoveJson(m.id, m.data, m.stamps)
  }

  /** The inverse of the renaming, so that toJSON is seen to lose nothing. */
  function FromJson(j: MoveJson): Move {
    Move(j.uid, j.data, j.stamps)
  }
}
