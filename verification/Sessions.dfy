/**
 The server's side of transactions: one session with its stack of savepoints. Several
 savepoints may share a name; `RELEASE` and `ROLLBACK TO` act on the topmost match, and
 `ROLLBACK TO` keeps the savepoint it returns to.
 */
module Sessions {
  import opened Wrappers

  /** The statements a transaction handle sends. */
  datatype Control =
    | Start
    | Savepoint(name: string)
    | Release(name: string)
    | RollbackTo(name: string)
    | Commit
    | Rollback

  /** Any other statement: what it makes of the database, or `None` when it fails. */
  type Effect<!D> = D -> Option<D>

  datatype Mark<D> = Mark(name: string, snapshot: D)

  /**
   `current` is what statements see; outside a transaction it is the committed database.
   In a transaction `committed` is what a rollback of the whole transaction returns to.
   */
  datatype Session<D> = Session(committed: D, current: D, active: bool, aborted: bool, stack: seq<Mark<D>>)

  function Idle<D>(db: D): Session<D> {
    Session(db, db, false, false, [])
  }

  /** The topmost savepoint of that name. */
  function Topmost<D>(stack: seq<Mark<D>>, name: string): (r: Option<nat>)
    ensures r.None? ==> forall i :: 0 <= i < |stack| ==> stack[i].name != name
    ensures r.Some? ==> r.value < |stack| && stack[r.value].name == name
    ensures r.Some? ==> forall i :: r.value < i < |stack| ==> stack[i].name != name
  {
    if stack == [] then None
    else if stack[|stack| - 1].name == name then Some(|stack| - 1)
    else Topmost(stack[..|stack| - 1], name)
  }

  // A failed statement aborts a transaction in progress.
  function Fail<D>(s: Session<D>): Session<D> {
    if s.active then s.(aborted := true) else s
  }

  function Obey<D>(s: Session<D>, c: Control): Session<D> {
    match c
    case Start => if s.active then s else Session(s.current, s.current, true, false, [])
    case Savepoint(name) =>
      if !s.active || s.aborted then Fail(s) else s.(stack := s.stack + [Mark(name, s.current)])
    case Release(name) =>
      if !s.active || s.aborted then Fail(s)
      else (match Topmost(s.stack, name)
            case None => Fail(s)
            case Some(i) => s.(stack := s.stack[..i]))
    case RollbackTo(name) =>
      if !s.active then s
      else (match Topmost(s.stack, name)
            case None => Fail(s)
            case Some(i) => s.(current := s.stack[i].snapshot, aborted := false, stack := s.stack[..i + 1]))
    case Commit => if !s.active then s else Idle(if s.aborted then s.committed else s.current)
    case Rollback => if !s.active then s else Idle(s.committed)
  }

  /** Any other statement: outside a transaction it commits by itself. */
  function Work<D>(s: Session<D>, effect: Effect<D>): Session<D> {
    if s.aborted then s
    else
      match effect(s.current)
      case None => Fail(s)
      case Some(d) => if s.active then s.(current := d) else Idle(d)
  }
}
