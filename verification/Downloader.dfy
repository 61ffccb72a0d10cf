/** The `Downloader`: one reply in flight, the other requests waiting in order. */
module Downloads {
  import opened Options
  import opened Stamps

  type Url = string

  /** `mCurrentRequest`, whether `mCurrentReply` is set, and `mPendingRequests`. */
  datatype Queue = Queue(current: Option<Url>, active: bool, pending: seq<Url>) {

    /** `startDownloadIfPending` */
    function Start(): Queue {
      if active || pending == [] then this
      else Queue(Some(pending[0]), true, pending[1..])
    }

    /** `scheduleDownload` */
    function Schedule(url: Url): Queue {
      this.(pending := pending + [url]).Start()
    }

    /** The scope guard at the end of `onNetworkReplyFinished`. */
    function Release(): Queue {
      this.(active := false).Start()
    }

    /** Requests not yet completed, in the order in which they will be. */
    function Outstanding(): seq<Url> {
      (if active && current.Some? then [current.value] else []) + pending
    }

    /** Never idle with requests waiting; a reply always belongs to a request. */
    predicate Busy() {
      (active ==> current.Some?) && (!active ==> pending == [])
    }
  }

  const EMPTY := Queue(None, false, [])

  /** Starting and scheduling keep the order; releasing removes exactly the first request. */
  lemma QueueIsFifo(q: Queue, url: Url)
    requires q.Busy()
    ensures q.Schedule(url).Busy() && q.Schedule(url).Outstanding() == q.Outstanding() + [url]
    ensures q.active ==> q.Release().Busy() && q.Release().Outstanding() == q.Outstanding()[1..]
  {
    if q.active {
      assert q.Release().Outstanding() == q.pending;
    }
  }

  // ---------- the outcome of a reply ----------

  datatype Code = SslEstablishmentError | FileNotFound | ReplyError(error: int) | OtherError

  datatype Signal = Success(lastModified: Stamp, data: seq<int>) | Failed(code: Code) | Unnecessary

  /** What a finished reply looks like; `error` is zero when there was no network error. */
  datatype Reply = Reply(
    trusted: bool, status: int, lastModified: Option<Stamp>, now: Stamp, error: int, data: seq<int>)

  const HTTP_STATUS_OK := 200
  const HTTP_STATUS_NOT_MODIFIED := 304
  const HTTP_STATUS_NOT_FOUND := 404

  function SignalOf(r: Reply): Signal {
    if !r.trusted then Failed(SslEstablishmentError)
    else if r.status == HTTP_STATUS_OK then
      Success(if r.lastModified.Some? then r.lastModified.value else r.now, r.data)
    else if r.status == HTTP_STATUS_NOT_MODIFIED then Unnecessary
    else if r.status == HTTP_STATUS_NOT_FOUND then Failed(FileNotFound)
    else if r.error != 0 then Failed(ReplyError(r.error))
    else Failed(OtherError)
  }

  /** The time that goes with the data: the server's, or now if the server gives none. */
  function TimeOf(r: Reply): Stamp {
    if r.lastModified.Some? then r.lastModified.value else r.now
  }

  /** What each outcome says about the reply. Nothing is reported of a reply that is not trusted but
      that; of a trusted one, 200 brings its own data, 304 means unchanged, 404 not found, and any
      other status is a failure with the network error, if there is one. */
  lemma OutcomeIs(r: Reply)
    ensures forall m, d :: SignalOf(r) == Success(m, d) <==>
      && r.trusted && r.status == 200 && d == r.data
      && m == if r.lastModified.Some? then r.lastModified.value else r.now
    ensures SignalOf(r) == Unnecessary <==> r.trusted && r.status == 304
    ensures SignalOf(r).Failed? <==> !r.trusted || r.status !in {200, 304}
    ensures SignalOf(r) == Failed(SslEstablishmentError) <==> !r.trusted
    ensures SignalOf(r) == Failed(FileNotFound) <==> r.trusted && r.status == 404
    ensures forall e :: SignalOf(r) == Failed(ReplyError(e)) <==>
      r.trusted && r.status !in {200, 304, 404} && r.error == e != 0
    ensures SignalOf(r) == Failed(OtherError) <==> r.trusted && r.status !in {200, 304, 404} && r.error == 0
  {
  }

  class Downloader {
    var currentRequest: Option<Url>
    var currentReply: bool
    var pendingRequests: seq<Url>
    /** What was asked for and what was answered, since the start. */
    ghost var scheduled: seq<Url>
    ghost var completed: seq<Url>

    ghost function View(): Queue
      reads this
    {
      Queue(currentRequest, currentReply, pendingRequests)
    }

    /** Conservation: everything scheduled is completed, current or pending, in this order. */
    ghost predicate Valid()
      reads this
    {
      View().Busy() && scheduled == completed + View().Outstanding()
    }

    constructor ()
      ensures Valid() && View() == EMPTY && scheduled == []
    {
      currentRequest, currentReply, pendingRequests := None, false, [];
      scheduled, completed := [], [];
    }

    method StartDownloadIfPending()
      modifies this
      ensures View() == old(View()).Start() && scheduled == old(scheduled) && completed == old(completed)
    {
      if currentReply {
        return;
      }
      if pendingRequests == [] {
        return;
      }
      currentRequest := Some(pendingRequests[0]);
      pendingRequests := pendingRequests[1..];
      currentReply := true;
    }

    method ScheduleDownload(url: Url)
      requires Valid()
      modifies this
      ensures Valid() && View() == old(View()).Schedule(url)
      ensures scheduled == old(scheduled) + [url] && completed == old(completed)
    {
      QueueIsFifo(View(), url);
      pendingRequests := pendingRequests + [url];
      scheduled := scheduled + [url];
      StartDownloadIfPending();
    }

    /** The part of `onNetworkReplyFinished` up to the signal: one signal, with the URL of the
        request; the check for a missing request never fires. */
    method FinishReply(reply: Reply) returns (url: Url, signal: Signal)
      requires Valid() && currentReply
      ensures currentRequest == Some(url) && View().Outstanding() == [url] + pendingRequests
      ensures signal == SignalOf(reply)
    {
      url := currentRequest.value;
      if !reply.trusted {
        return url, Failed(SslEstablishmentError);
      }
      match reply.status {
        case 200 =>
          var lastModified := if reply.lastModified.Some? then reply.lastModified.value else reply.now;
          signal := Success(lastModified, reply.data);
        case 304 =>
          signal := Unnecessary;
        case 404 =>
          signal := Failed(FileNotFound);
        case _ =>
          signal := if reply.error != 0 then Failed(ReplyError(reply.error)) else Failed(OtherError);
      }
    }

    /** The scope guard that runs after the signal has been delivered. */
    method ReleaseReply()
      requires Valid() && currentReply
      modifies this
      ensures Valid() && View() == old(View()).Release()
      ensures scheduled == old(scheduled) && completed == old(completed) + [old(currentRequest).value]
    {
      QueueIsFifo(View(), currentRequest.value);
      completed := completed + [currentRequest.value];
      currentReply := false;
      StartDownloadIfPending();
    }
  }
}
