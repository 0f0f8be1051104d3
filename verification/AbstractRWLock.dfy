/** What any readers/writer lock is for: at every moment either a set of readers
    or one writer.  Both locks of the repository are shown to refine it. */
module AbstractRWLock {

  datatype Owners = Owners(readers: set<nat>, writers: set<nat>)

  /** A set of readers or a single writer. */
  ghost predicate Exclusive(o: Owners) {
    && (o.writers == {} || exists w :: o.writers == {w})
    && (o.writers != {} ==> o.readers == {})
  }

  datatype Event =
    | AcquireRead(t: nat)
    | AcquireWrite(t: nat)
    | ReleaseRead(t: nat)
    | ReleaseWrite(t: nat)
    | Upgrade(t: nat)
    | Downgrade(t: nat)
    | Stutter

  ghost predicate Allowed(e: Event, o: Owners, o': Owners) {
    match e
    case AcquireRead(t) => t !in o.readers && o.writers == {} && o' == o.(readers := o.readers + {t})
    case AcquireWrite(t) => o == Owners({}, {}) && o' == Owners({}, {t})
    case ReleaseRead(t) => t in o.readers && o' == o.(readers := o.readers - {t})
    case ReleaseWrite(t) => o == Owners({}, {t}) && o' == Owners({}, {})
    case Upgrade(t) => o == Owners({t}, {}) && o' == Owners({}, {t})
    case Downgrade(t) => o == Owners({}, {t}) && o' == Owners({t}, {})
    case Stutter => o' == o
  }

  lemma AllowedKeepsExclusive(e: Event, o: Owners, o': Owners)
    requires Exclusive(o) && Allowed(e, o, o')
    ensures Exclusive(o')
  {
  }
}
