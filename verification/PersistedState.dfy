/**
 * A value that is kept in memory and mirrored to a file. What a later process
 * finds in the file depends on how the last write ended.
 */
module PersistedState {
  import opened Common

  /**
   * How writing the file ended. If the file cannot be opened, the old value
   * stays; once it has been truncated, a write that breaks off leaves text
   * that cannot be parsed, because no proper prefix of a JSON list is JSON.
   */
  datatype Write = Written | NotOpened | Torn

  /** `cached` is the value in memory, `disk` what reading the file would give. */
  datatype Store<+T> = Store(cached: Option<T>, disk: Option<T>)

  /** The value that loading returns; `default_` where there is none to read. */
  function Held<T>(s: Store<T>, default_: T): T {
    match s
    case Store(Some(v), _) => v
    case Store(None, Some(v)) => v
    case Store(None, None) => default_
  }

  function Loaded<T>(s: Store<T>, default_: T): Store<T> {
    s.(cached := Some(Held(s, default_)))
  }

  function Saved<T>(s: Store<T>, v: T, write: Write): Store<T> {
    Store(Some(v), match write case Written => Some(v) case NotOpened => s.disk case Torn => None)
  }

  /** The same file seen by a new process; one that cannot be read counts as the default. */
  function Reopened<T>(s: Store<T>, readable: bool, default_: T): Store<T> {
    s.(cached := if readable then None else Some(default_))
  }

  class Container<T(==)> {
    const default_: T
    var cached: Option<T>
    var disk: Option<T>

    ghost function View(): Store<T>
      reads this
    {
      Store(cached, disk)
    }

    constructor (default_: T, disk: Option<T>, readable: bool)
      ensures this.default_ == default_ && View() == Reopened(Store(None, disk), readable, default_)
    {
      this.default_, this.disk := default_, disk;
      this.cached := if readable then None else Some(default_);
    }

    method LoadOrGet() returns (v: T)
      modifies this
      ensures v == Held(old(View()), default_)
      ensures View() == Loaded(old(View()), default_)
    {
      if cached.Some? { return cached.value; }
      v := if disk.Some? then disk.value else default_;
      cached := Some(v);
    }

    /** The value in memory is replaced before the write is attempted. */
    method Save(v: T, write: Write) returns (ok: bool)
      modifies this
      ensures View() == Saved(old(View()), v, write) && ok == write.Written?
    {
      cached := Some(v);
      match write {
        case Written => disk := Some(v);
        case NotOpened =>
        case Torn => disk := None;
      }
      return write.Written?;
    }
  }
}
