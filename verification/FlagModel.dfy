/** The values the whole system exchanges: flags, durable events, live frames. */
module FlagModel {

  datatype Option<+T> = None | Some(value: T)

  /** A feature flag. Timestamps are not modelled. */
  datatype Flag = Flag(id: string, key: string, description: string, enabled: bool,
                       rollout: int, targeted: seq<string>, version: int)

  /** What one durable event did; the event type decides how its payload is read. */
  datatype Change = Created(flag: Flag) | Updated(flag: Flag) | Deleted(id: string)

  /** One row of the append-only event log. */
  datatype Event = Event(version: int, key: string, change: Change)

  /** One live message: its type and typed data, and the version sent as its id. */
  datatype Notice = FlagUpdated(flag: Flag) | FlagDeleted(key: string)
  datatype Frame = Frame(version: int, notice: Notice)

  /** Flags by key, as a client holds them. */
  type Flags = map<string, Flag>

  predicate KeyChar(c: char) {
    'a' <= c <= 'z' || 'A' <= c <= 'Z' || '0' <= c <= '9' || c == '-'
  }

  /** The key format the service demands before anything is stored. */
  predicate ValidKey(key: string) {
    0 < |key| <= 64 && forall i :: 0 <= i < |key| ==> KeyChar(key[i])
  }

  lemma KeyAlphabet(c: char)
    ensures KeyChar(c) <==>
            || c in "abcdefghijklmnopqrstuvwxyz" || c in "ABCDEFGHIJKLMNOPQRSTUVWXYZ" || c in "0123456789" || c in "-"
  {
  }

  function EventId(e: Event): string {
    if e.change.Deleted? then e.change.id else e.change.flag.id
  }

  /** An event's own key and version agree with its payload. */
  predicate WellFormed(e: Event) {
    && e.version >= 1
    && ValidKey(e.key)
    && (!e.change.Deleted? ==> e.change.flag.key == e.key && e.change.flag.version == e.version)
  }
}
