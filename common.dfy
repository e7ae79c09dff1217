/**
 * `ZhihuCommon`: the state every request shares. In the program it lives in
 * class attributes, so there is one per process; here it is one object that
 * the crawler and every profile fetch are handed.
 */
module Common {
  import opened Wrappers
  import opened Web
  import opened Retry

  /** The answers the transport gives to the five possible attempts of one GET. */
  function GetAnswers(t: Transport, url: string): (a: seq<Attempt<Document>>)
    ensures |a| == MaxTries && forall k | 0 <= k < MaxTries :: a[k] == t.get(url, k)
  {
    seq(MaxTries, k requires 0 <= k => t.get(url, k))
  }

  /** The answers the transport gives to the five possible attempts of one POST. */
  function PostAnswers(t: Transport, url: string, form: Form): (a: seq<Attempt<Response>>)
    ensures |a| == MaxTries && forall k | 0 <= k < MaxTries :: a[k] == t.post(url, form, k)
  {
    seq(MaxTries, k requires 0 <= k => t.post(url, form, k))
  }

  /** What `get(url)` returns or raises; the shared flag has no say in it, only in the sleeps. */
  function Fetched(t: Transport, url: string): Result<Document, Exception>
  {
    RetryResult(GetAnswers(t, url))
  }

  /** What `post(url, form)` returns or raises. */
  function Posted(t: Transport, url: string, form: Form): Result<Response, Exception>
  {
    RetryResult(PostAnswers(t, url, form))
  }

  /**
   * `get(url)` answers iff the transport answers one of the five attempts,
   * and then with the first such answer; otherwise it raises
   * `NoActiveException`. The flag the call finds plays no part.
   */
  lemma FetchedSpec(t: Transport, url: string)
    ensures Fetched(t, url).Success? <==> exists k | 0 <= k < MaxTries :: t.get(url, k).Responded?
    ensures Fetched(t, url).Success? ==>
      exists k | 0 <= k < MaxTries ::
        t.get(url, k) == Responded(Fetched(t, url).value) && forall j | 0 <= j < k :: t.get(url, j).Raised?
    ensures Fetched(t, url).Failure? ==> Fetched(t, url).error == NoActiveException
  {
    var a := GetAnswers(t, url);
    RetryResultSpec(a);
    if Fetched(t, url).Success? {
      var k :| 0 <= k < MaxTries && a[k] == Responded(Fetched(t, url).value) && forall j | 0 <= j < k :: a[j].Raised?;
      assert t.get(url, k) == Responded(Fetched(t, url).value) && forall j | 0 <= j < k :: t.get(url, j).Raised?;
    }
    if exists k | 0 <= k < MaxTries :: t.get(url, k).Responded? {
      var k :| 0 <= k < MaxTries && t.get(url, k).Responded?;
      assert a[k].Responded?;
    }
  }

  /** The same for `post(url, form)`. */
  lemma PostedSpec(t: Transport, url: string, form: Form)
    ensures Posted(t, url, form).Success? <==> exists k | 0 <= k < MaxTries :: t.post(url, form, k).Responded?
    ensures Posted(t, url, form).Success? ==>
      exists k | 0 <= k < MaxTries ::
        && t.post(url, form, k) == Responded(Posted(t, url, form).value)
        && forall j | 0 <= j < k :: t.post(url, form, j).Raised?
    ensures Posted(t, url, form).Failure? ==> Posted(t, url, form).error == NoActiveException
  {
    var a := PostAnswers(t, url, form);
    RetryResultSpec(a);
    if Posted(t, url, form).Success? {
      var k :| 0 <= k < MaxTries && a[k] == Responded(Posted(t, url, form).value) && forall j | 0 <= j < k :: a[j].Raised?;
      assert t.post(url, form, k) == Responded(Posted(t, url, form).value) && forall j | 0 <= j < k :: t.post(url, form, j).Raised?;
    }
    if exists k | 0 <= k < MaxTries :: t.post(url, form, k).Responded? {
      var k :| 0 <= k < MaxTries && t.post(url, form, k).Responded?;
      assert a[k].Responded?;
    }
  }

  class ZhihuCommon {
    /** `_last_get_page_fail`: did the latest request attempt in the process fail? */
    var lastGetPageFail: bool
    /** `_xsrf`: the anti-forgery token, `None` until `set_xsrf`. */
    var xsrf: Option<string>
    /** How many times `time.sleep(10)` has been called. */
    var sleeps: nat
    /** Every sleep and every transport attempt made by every request so far, in order. */
    ghost var history: seq<Event>

    /** The flag and the sleep count are what the history says, and the history keeps the backoff discipline. */
    ghost predicate Valid()
      reads this
    {
      && Spaced(false, history)
      && lastGetPageFail == FlagAfter(false, history)
      && sleeps == Sleeps(history)
    }

    /** The class attributes as the module defines them, before any request. */
    constructor ()
      ensures Valid() && history == [] && !lastGetPageFail && xsrf == None && sleeps == 0
    {
      lastGetPageFail := false;
      xsrf := None;
      sleeps := 0;
      history := [];
    }

    method SetXsrf(token: string)
      modifies this`xsrf
      ensures xsrf == Some(token)
    {
      xsrf := Some(token);
    }

    /**
     * The retry loop of `ZhihuCommon.get(url)`, given the answers the
     * transport gives to attempts 0 to 4: up to five attempts, each preceded
     * by a ten second sleep while the shared flag is set; the flag is cleared
     * by an answer and set by a failure. The call returns, sleeps and leaves
     * the flag as `Run` says from the flag it finds; the history records
     * `Run`'s events.
     */
    method RetryGet(answers: seq<Attempt<Document>>) returns (res: Result<Document, Exception>)
      requires |answers| == MaxTries
      modifies this`lastGetPageFail, this`sleeps, this`history
      ensures res == Run(old(lastGetPageFail), answers).result
      ensures lastGetPageFail == Run(old(lastGetPageFail), answers).failFlag
      ensures sleeps == old(sleeps) + Sleeps(Run(old(lastGetPageFail), answers).events)
      ensures history == old(history) + Run(old(lastGetPageFail), answers).events
    {
      ghost var f0, h0 := lastGetPageFail, history;
      var tryTime := 0;
      while tryTime < MaxTries
        invariant 0 <= tryTime <= MaxTries
        invariant tryTime <= FirstAnswer(answers, 0)
        invariant lastGetPageFail == (tryTime > 0 || f0)
        invariant sleeps == old(sleeps) + FailedSleeps(f0, tryTime)
      {
        if lastGetPageFail {
          sleeps := sleeps + 1;
        }
        var answer := answers[tryTime];
        tryTime := tryTime + 1;
        if answer.Responded? {
          lastGetPageFail := false;
          RunFirstAnswer(f0, answers, tryTime - 1);
          history := h0 + Run(f0, answers).events;
          return Success(answer.value);
        }
        lastGetPageFail := true;
      }
      RunAllFail(f0, answers);
      history := h0 + Run(f0, answers).events;
      res := Failure(NoActiveException);
    }

    /**
     * `ZhihuCommon.get(url)`: the page, or the error of the bare `raise`
     * after the fifth failed attempt. What it returns does not depend on the
     * flag it finds; the flag it leaves is set iff it failed, and the history
     * keeps the backoff discipline.
     */
    method Get(t: Transport, url: string) returns (res: Result<Document, Exception>)
      requires Valid()
      modifies this`lastGetPageFail, this`sleeps, this`history
      ensures Valid()
      ensures res == Fetched(t, url)
      ensures history == old(history) + Run(old(lastGetPageFail), GetAnswers(t, url)).events
      ensures lastGetPageFail <==> res.Failure?
    {
      HistoryExtends(history, GetAnswers(t, url));
      res := RetryGet(GetAnswers(t, url));
    }

    /**
     * The retry loop of `ZhihuCommon.post(url, post_dict)`, the same as that
     * of `get`, given the answers the
     * transport gives to attempts 0 to 4: up to five attempts, each preceded
     * by a ten second sleep while the shared flag is set; the flag is cleared
     * by an answer and set by a failure. The call returns, sleeps and leaves
     * the flag as `Run` says from the flag it finds; the history records
     * `Run`'s events.
     */
    method RetryPost(answers: seq<Attempt<Response>>) returns (res: Result<Response, Exception>)
      requires |answers| == MaxTries
      modifies this`lastGetPageFail, this`sleeps, this`history
      ensures res == Run(old(lastGetPageFail), answers).result
      ensures lastGetPageFail == Run(old(lastGetPageFail), answers).failFlag
      ensures sleeps == old(sleeps) + Sleeps(Run(old(lastGetPageFail), answers).events)
      ensures history == old(history) + Run(old(lastGetPageFail), answers).events
    {
      ghost var f0, h0 := lastGetPageFail, history;
      var tryTime := 0;
      while tryTime < MaxTries
        invariant 0 <= tryTime <= MaxTries
        invariant tryTime <= FirstAnswer(answers, 0)
        invariant lastGetPageFail == (tryTime > 0 || f0)
        invariant sleeps == old(sleeps) + FailedSleeps(f0, tryTime)
      {
        if lastGetPageFail {
          sleeps := sleeps + 1;
        }
        var answer := answers[tryTime];
        tryTime := tryTime + 1;
        if answer.Responded? {
          lastGetPageFail := false;
          RunFirstAnswer(f0, answers, tryTime - 1);
          history := h0 + Run(f0, answers).events;
          return Success(answer.value);
        }
        lastGetPageFail := true;
      }
      RunAllFail(f0, answers);
      history := h0 + Run(f0, answers).events;
      res := Failure(NoActiveException);
    }

    /**
     * `ZhihuCommon.post(url, post_dict)`: the response, or the error of the bare `raise`
     * after the fifth failed attempt. What it returns does not depend on the
     * flag it finds; the flag it leaves is set iff it failed, and the history
     * keeps the backoff discipline.
     */
    method Post(t: Transport, url: string, form: Form) returns (res: Result<Response, Exception>)
      requires Valid()
      modifies this`lastGetPageFail, this`sleeps, this`history
      ensures Valid()
      ensures res == Posted(t, url, form)
      ensures history == old(history) + Run(old(lastGetPageFail), PostAnswers(t, url, form)).events
      ensures lastGetPageFail <==> res.Failure?
    {
      HistoryExtends(history, PostAnswers(t, url, form));
      res := RetryPost(PostAnswers(t, url, form));
    }

  }
}
