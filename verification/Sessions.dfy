/** A database session and the invalidation marks it carries: app/db.py and the commit side of
    app/services/entitlements.py.

    One session is open at a time here. `committed` is what every other reader sees, `working` is
    what this transaction has done so far. The interleavings are in SyncProtocol and CacheProtocol.
 */
module Sessions {
  import opened Models
  import opened Cache

  class Session {
    var committed: Db
    var working: Db
    var marks: set<string>
    const cache: InMemoryBackend

    ghost predicate Valid()
      reads this, cache
    {
      cache.Valid()
    }

    /** No transaction is open: nothing pending, nothing marked. */
    ghost predicate Idle()
      reads this, cache
    {
      Valid() && working == committed && marks == {}
    }

    constructor (db: Db, cache: InMemoryBackend)
      requires cache.Valid()
      ensures Idle() && committed == db && this.cache == cache
    {
      committed, working, marks := db, db, {};
      this.cache := cache;
    }

    /** A plain commit. The listener that runs after it drops whatever was still marked. */
    method Commit()
      requires Valid()
      modifies this
      ensures Idle() && committed == old(working)
    {
      committed := working;
      marks := {};
    }

    /** Marks are not transactional on their own; a listener discards them. */
    method Rollback()
      requires Valid()
      modifies this
      ensures Idle() && committed == old(committed)
    {
      working := committed;
      marks := {};
    }
  }

  method MarkEntitlementsStale(session: Session, userId: string)
    requires session.Valid()
    modifies session`marks
    ensures session.Valid()
    ensures session.marks == old(session.marks) + {userId}
  {
    session.marks := session.marks + {userId};
  }

  /** The cached answers that are dropped when these users are drained. */
  function EntitlementKeys(users: set<string>): set<Key> {
    set u | u in users :: EntitlementKey(u)
  }

  /** Commits, and only then drops the cached answer of everyone marked. A delete in `failing` is
      swallowed: the write is already durable. */
  method CommitAndInvalidate(session: Session, failing: set<string>)
    requires session.Valid()
    modifies session, session.cache
    ensures session.Idle() && session.committed == old(session.working)
    ensures session.cache.data == old(session.cache.data) - EntitlementKeys(old(session.marks) - failing)
  {
    var users := session.marks;
    session.marks := {};
    session.Commit();
    var left := users;
    while left != {}
      invariant left <= users
      invariant session.Idle() && session.committed == old(session.working)
      invariant session.cache.data == old(session.cache.data) - EntitlementKeys(users - left - failing)
    {
      var u :| u in left;
      if u !in failing {
        session.cache.Delete(EntitlementKey(u));
      }
      assert users - (left - {u}) - failing
             == users - left - failing + (if u in failing then {} else {u});
      left := left - {u};
    }
  }
}
