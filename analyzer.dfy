/**
 * The email analyzer component: a single-slot trailing-edge debounce in
 * front of `analyze`, and the `loading` / `result` / `error` state that
 * `analyze` and the completion of its request update. Time is counted in
 * abstract ticks; the request is sent by appending it to `requests` and
 * settles later through `CompleteSuccess` or `CompleteFailure`.
 */
module SpamAnalyzer {
  import opened Text
  import opened Values
  import opened Maybe

  /** The debounce delay, in ticks. */
  const Delay: nat := 1200

  const FailureMessage := "Failed to analyze. Ensure backend is running at http://127.0.0.1:5000/predict"

  /** The object stored by `setResult`: the prediction and, when it is a number, the confidence. */
  datatype Shown = Shown(prediction: Value, confidence: Option<real>)

  /** The one timer `timeoutRef` can hold: when it fires and the value it passes on. */
  datatype Timer = Timer(due: nat, value: string)

  /** The text `analyze` sends for `content`, or nothing when the trimmed text is empty. */
  function RequestFor(content: string): (r: Option<string>)
    ensures r.None? <==> AllIn(content, IsJsWhitespace)
    ensures r.Some? ==> r.value == JsTrim(content)
    ensures r.Some? ==> r.value != [] && JsTrim(r.value) == r.value
  {
    StripEmptyIff(content, IsJsWhitespace);
    var trimmed := JsTrim(content);
    if trimmed == [] then None
    else
      StripIdempotent(content, IsJsWhitespace);
      Some(trimmed)
  }

  /** The result a successful response is turned into. */
  function Outcome(data: Value): (r: Shown)
    ensures r.prediction == Null || (JsTruthy(r.prediction) && r.prediction == Get(data, "prediction"))
    ensures JsTruthy(Get(data, "prediction")) ==> r.prediction == Get(data, "prediction")
    ensures r.confidence.Some? <==> Get(data, "confidence").Num?
    ensures r.confidence.Some? ==> r.confidence.value == Get(data, "confidence").n
  {
    var p := Get(data, "prediction");
    var c := Get(data, "confidence");
    Shown(if JsTruthy(p) then p else Null, if c.Num? then Some(c.n) else None)
  }

  /** A JSON object with a string prediction keeps that prediction. */
  lemma PredictionKept(fields: map<string, Value>, name: string)
    requires "prediction" in fields && fields["prediction"] == Str(name) && name != []
    ensures Outcome(Obj(fields)).prediction == Str(name)
  {
  }

  /** A response that is no object, or has no `prediction`, shows a null prediction and no confidence. */
  lemma NoObjectNoPrediction(data: Value)
    requires !data.Obj?
    ensures Outcome(data) == Shown(Null, None)
  {
  }

  class Analyzer {
    var text: string
    var loading: bool
    var result: Option<Shown>
    var error: string
    /** `timeoutRef.current` while it has not fired. */
    var pending: Option<Timer>
    var now: nat
    /** Every text sent to the backend, in order. */
    var requests: seq<string>
    /** Requests sent whose response has not arrived. */
    var outstanding: nat

    ghost predicate Valid()
      reads this
    {
      && (loading ==> outstanding > 0)
      && outstanding <= |requests|
      && (pending.Some? ==> now <= pending.value.due <= now + Delay)
      && (error == "" || error == FailureMessage)
    }

    /** The button is disabled while a request runs or while the text is blank. */
    function ButtonDisabled(): (r: bool)
      reads this
      ensures r <==> loading || AllIn(text, IsJsWhitespace)
    {
      StripEmptyIff(text, IsJsWhitespace);
      loading || JsTrim(text) == []
    }

    /** `result && !error`: the result panel. */
    predicate ShowResult()
      reads this
    {
      result.Some? && error == ""
    }

    /** `typeof result?.confidence === 'number'`. */
    predicate ShowConfidence()
      reads this
    {
      result.Some? && result.value.confidence.Some?
    }

    /** `result?.prediction === 'Spam'`: the panel's colour and wording. */
    predicate IsSpam()
      reads this
    {
      result.Some? && result.value.prediction == Str("Spam")
    }

    /** Mounting: the state starts empty and the effect debounces the empty text. */
    constructor ()
      ensures Valid()
      ensures text == "" && !loading && result.None? && error == ""
      ensures now == 0 && pending == Some(Timer(Delay, "")) && requests == [] && outstanding == 0
    {
      text, loading, result, error := "", false, None, "";
      now, requests, outstanding := 0, [], 0;
      pending := Some(Timer(Delay, ""));
    }

    /** The debounced call: the pending timer, if any, is cancelled and one new timer is armed. */
    method Debounce(value: string)
      requires Valid()
      modifies this
      ensures Valid()
      ensures pending == Some(Timer(now + Delay, value))
      ensures text == old(text) && loading == old(loading) && result == old(result) && error == old(error)
      ensures now == old(now) && requests == old(requests) && outstanding == old(outstanding)
    {
      pending := Some(Timer(now + Delay, value));
    }

    /** Typing: a changed text re-runs the effect, which debounces the new text. */
    method SetText(t: string)
      requires Valid()
      modifies this
      ensures Valid()
      ensures text == t
      ensures pending == if t == old(text) then old(pending) else Some(Timer(now + Delay, t))
      ensures loading == old(loading) && result == old(result) && error == old(error)
      ensures now == old(now) && requests == old(requests) && outstanding == old(outstanding)
    {
      if t != text {
        text := t;
        Debounce(t);
      }
    }

    /** Time passes; it cannot run past a pending timer without the timer firing. */
    method Advance(dt: nat)
      requires Valid() && (pending.Some? ==> now + dt <= pending.value.due)
      modifies this
      ensures Valid()
      ensures now == old(now) + dt
      ensures text == old(text) && loading == old(loading) && result == old(result) && error == old(error)
      ensures pending == old(pending) && requests == old(requests) && outstanding == old(outstanding)
    {
      now := now + dt;
    }

    /**
     * `analyze(content)` up to the `await`: blank content clears the result
     * and the error and sends nothing; otherwise `loading` is set, the error
     * cleared and the trimmed text sent.
     */
    method Analyze(content: string)
      requires Valid()
      modifies this
      ensures Valid()
      ensures RequestFor(content).None? ==>
                result.None? && error == "" && loading == old(loading)
                && requests == old(requests) && outstanding == old(outstanding)
      ensures RequestFor(content).Some? ==>
                loading && error == "" && result == old(result)
                && requests == old(requests) + [RequestFor(content).value] && outstanding == old(outstanding) + 1
      ensures text == old(text) && pending == old(pending) && now == old(now)
    {
      var trimmed := JsTrim(content);
      if trimmed == [] {
        result := None;
        error := "";
        return;
      }
      loading := true;
      error := "";
      requests := requests + [trimmed];
      outstanding := outstanding + 1;
    }

    /** The pending timer fires once due: the slot empties and `analyze` runs on the value of the last call. */
    method Fire()
      requires Valid() && pending.Some? && pending.value.due == now
      modifies this
      ensures Valid()
      ensures pending.None?
      ensures RequestFor(old(pending).value.value).None? ==>
                result.None? && error == "" && loading == old(loading)
                && requests == old(requests) && outstanding == old(outstanding)
      ensures RequestFor(old(pending).value.value).Some? ==>
                loading && error == "" && result == old(result)
                && requests == old(requests) + [RequestFor(old(pending).value.value).value]
                && outstanding == old(outstanding) + 1
      ensures text == old(text) && now == old(now)
    {
      var value := pending.value.value;
      pending := None;
      Analyze(value);
    }

    /** The button calls `analyze(text)` directly; a disabled button does nothing. */
    method Click()
      requires Valid()
      modifies this
      ensures Valid()
      ensures old(ButtonDisabled()) ==>
                loading == old(loading) && result == old(result) && error == old(error)
                && requests == old(requests) && outstanding == old(outstanding)
      ensures !old(ButtonDisabled()) ==>
                loading && error == "" && result == old(result)
                && requests == old(requests) + [JsTrim(text)] && outstanding == old(outstanding) + 1
      ensures text == old(text) && pending == old(pending) && now == old(now)
    {
      if !ButtonDisabled() {
        Analyze(text);
      }
    }

    /** A response arrives: the result is replaced and `loading` cleared; the error is left as it is. */
    method CompleteSuccess(data: Value)
      requires Valid() && outstanding > 0
      modifies this
      ensures Valid()
      ensures result == Some(Outcome(data)) && !loading && error == old(error)
      ensures ShowResult() <==> error == ""
      ensures ShowConfidence() <==> Get(data, "confidence").Num?
      ensures IsSpam() <==> Get(data, "prediction") == Str("Spam")
      ensures outstanding == old(outstanding) - 1 && requests == old(requests)
      ensures text == old(text) && pending == old(pending) && now == old(now)
    {
      result := Some(Outcome(data));
      loading := false;
      outstanding := outstanding - 1;
    }

    /** The request fails: the fixed message is shown, the result cleared and `loading` cleared. */
    method CompleteFailure()
      requires Valid() && outstanding > 0
      modifies this
      ensures Valid()
      ensures error == FailureMessage && result.None? && !loading && !ShowResult()
      ensures outstanding == old(outstanding) - 1 && requests == old(requests)
      ensures text == old(text) && pending == old(pending) && now == old(now)
    {
      error := FailureMessage;
      result := None;
      loading := false;
      outstanding := outstanding - 1;
    }
  }

  /**
   * Typing `first`, pausing for less than the delay and typing `second`
   * sends only `second`, trimmed, once the delay has passed after the last
   * keystroke; the panel then shows the backend's answer.
   */
  method LastKeystrokeWins(first: string, second: string, pause: nat, data: Value)
    returns (sent: seq<string>, shown: bool)
    requires first != "" && second != first && pause < Delay && RequestFor(second).Some?
    ensures sent == [RequestFor(second).value]
    ensures shown
  {
    var a := new Analyzer();
    a.SetText(first);
    a.Advance(pause);
    a.SetText(second);
    a.Advance(Delay);
    a.Fire();
    a.CompleteSuccess(data);
    sent, shown := a.requests, a.ShowResult();
  }
}
