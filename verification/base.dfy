/** The base shape every stored document shares: an identifier and three timestamps.
    Each schema declares created_at and updated_at defaulting to Date.now and
    deleted_at defaulting to null; a set deleted_at is the soft-delete mark. */
module Base {
  import opened Wrappers
  import opened Clock

  /** A document identifier (a Mongoose ObjectId). */
  type Id = nat

  datatype Stamps = Stamps(created: Time, updated: Time, deleted: Option<Time>) {
    /** `!doc.deleted_at`: the document has not been soft-deleted. */
    predicate Live() {
      deleted.None?
    }
  }

  /** The schema defaults of a document constructed at `now`. */
  function Fresh(now: Time): Stamps {
    Stamps(now, now, None)
  }

  /** The pre('save') hook every schema installs: `this.updated_at = new Date()`. */
  function Touch(st: Stamps, now: Time): Stamps {
    st.(updated := now)
  }

  /** `this.deleted_at = new Date()` followed by the document's own save, whose
      pre('save') hook stamps updated_at with the same instant. */
  function MarkDeleted(st: Stamps, now: Time): Stamps {
    Stamps(st.created, now, Some(now))
  }
}
