/** The client endpoints: the snapshot taken in two reads, and the page of events after a version. */
module Handler {
  import opened FlagModel
  import opened EventLog
  import opened Repository
  import opened Sdk
  import Snapshots
  import SseText

  datatype FlagsAnswer = FlagList(flags: seq<Flag>, version: int) | FlagsFailed

  datatype EventsAnswer = Events(page: seq<Event>, version: int) | InvalidSince | EventsFailed

  /** The `since` parameter: absent means 0, anything but a non-negative 64-bit decimal is refused. */
  function Since(text: string): Option<int> {
    if text == "" then Some(0)
    else
      var parsed := SseText.ParseInt(text);
      if parsed.None? || parsed.value < 0 then None else parsed
  }

  /** The answer when the page is read from the log `first` and the version, later, from the log `second`. */
  function EventsReply(first: seq<Event>, second: seq<Event>, since: string, pageFails: bool, versionFails: bool)
    : EventsAnswer
  {
    match Since(since)
    case None => InvalidSince
    case Some(v) =>
      if pageFails || versionFails then EventsFailed else Events(PageOf(first, v, 500), MaxVersion(second))
  }

  /** What a client makes of the answer. */
  function FetchOf(answer: EventsAnswer): Fetch {
    if answer.Events? then Page(answer.page) else Refused
  }

  /**
   * The version a client writes into its request is the one the log is read from, and none means 0: it gets the page it
   * asked for, and the version as of the later read. Anything but digits with an optional sign, negative numbers, and
   * what exceeds 64 bits is refused, whatever the log.
   */
  lemma RequestIsAnswered(first: seq<Event>, second: seq<Event>, since: nat, text: string)
    requires text == SseText.Decimal(since) || (text == "" && since == 0)
    ensures var answer := EventsReply(first, second, text, false, false);
      if since <= 0x7fff_ffff_ffff_ffff then
        answer == Events(PageOf(first, since, 500), MaxVersion(second)) && FetchOf(answer) == ServeLog(first)(0, since)
      else answer.InvalidSince? && FetchOf(answer).Refused?
  {
    SseText.DecimalParses(since);
    if text != "" { SseText.ParseIntIff(text, since); }
  }

  /** Exactly what is refused: a text that is no number from 0 to the 64-bit maximum. */
  lemma RefusedIff(first: seq<Event>, second: seq<Event>, text: string, pageFails: bool, versionFails: bool)
    ensures EventsReply(first, second, text, pageFails, versionFails).InvalidSince? <==>
            text != "" && forall n :: 0 <= n <= 0x7fff_ffff_ffff_ffff ==> !SseText.Writes(text, n)
  {
    if text != "" {
      var parsed := SseText.ParseInt(text);
      if parsed.Some? { SseText.ParseIntIff(text, parsed.value); }
      forall n | 0 <= n <= 0x7fff_ffff_ffff_ffff && SseText.Writes(text, n) ensures parsed == Some(n) {
        SseText.ParseIntIff(text, n);
      }
    }
  }

  /** `repo` is the store as a request's last query finds it; what earlier queries saw is passed in. */
  class ClientHandler {
    const repo: FlagRepository

    constructor (repo: FlagRepository)
      ensures this.repo == repo
    {
      this.repo := repo;
    }

    /**
     * `listed` is what the table query returned on the store `before`, if it did not fail. The answer is a true
     * snapshot exactly when every key committed between the two reads is absent before and after.
     */
    method GetAllFlags(listed: Option<seq<Flag>>, versionFails: bool, ghost before: Store) returns (answer: FlagsAnswer)
      requires StoreInv(before) && StoreInv(repo.State()) && Extends(repo.log, before.log)
      requires listed.Some? ==> Lists(before.rows, listed.value)
      ensures answer == if listed.None? || versionFails then FlagsFailed
                        else FlagList(listed.value, MaxVersion(repo.log))
      ensures answer.FlagList? ==>
              (InStep(repo.log, View(FlagsOf(answer.flags), answer.version)) <==>
               forall i :: |before.log| <= i < |repo.log| ==>
                 repo.log[i].key !in Replay(before.log) && repo.log[i].key !in Replay(repo.log))
    {
      if listed.None? { return FlagsFailed; }
      var flags := listed.value;
      var result := new Flag[|flags|](i requires 0 <= i < |flags| => flags[i]);
      for i := 0 to |flags|
        invariant result[..i] == flags[..i]
      {
        result[i] := flags[i];
      }
      assert result[..] == flags;
      var version := repo.GetLatestVersion(versionFails);
      if version.None? { return FlagsFailed; }
      answer := FlagList(result[..], version.value);
      Snapshots.TwoReadSnapshot(before, repo.State(), flags);
    }

    /** `earlier` is the store as the page query finds it; only the page of the answer is of use to a client. */
    method Reconcile(since: string, earlier: FlagRepository, pageFails: bool, versionFails: bool)
      returns (answer: EventsAnswer)
      requires Ordered(earlier.log) && Ordered(repo.log)
      ensures answer == EventsReply(earlier.log, repo.log, since, pageFails, versionFails)
      ensures answer.InvalidSince? <==>
        since != "" && (SseText.ParseInt(since).None? || SseText.ParseInt(since).value < 0)
      ensures answer.EventsFailed? <==> !answer.InvalidSince? && (pageFails || versionFails)
      ensures answer.Events? ==> var from := if since == "" then 0 else SseText.ParseInt(since).value;
        && SegmentAfter(earlier.log, from, answer.page)
        && |answer.page| == AtMost(|earlier.log| - CountUpTo(earlier.log, from), 500)
        && answer.version == MaxVersion(repo.log)
    {
      var from := 0;
      if since != "" {
        var v := SseText.ParseInt(since);
        if v.None? || v.value < 0 { return InvalidSince; }
        from := v.value;
      }
      var page := earlier.ListEventsSince(from, 0, pageFails);
      if page.None? { return EventsFailed; }
      var version := repo.GetLatestVersion(versionFails);
      if version.None? { return EventsFailed; }
      answer := Events(page.value, version.value);
    }
  }
}
