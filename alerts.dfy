/**
 * The alert queue of the page: every alert raised and not yet dismissed,
 * in the order raised. An alert's id is the millisecond clock reading at
 * which it was raised (`now`), so two alerts raised within the same
 * millisecond share an id.
 */
module Alerts {
  import opened Base
  import opened Seqs

  datatype AlertType = Success | Error

  datatype AlertMessage = AlertMessage(id: int, text: string, kind: AlertType, duration: int)

  /** How long an alert stays, in milliseconds, when the caller names no duration. */
  const DefaultDuration := 3000

  /** The alert `addAlert` raises at clock reading `now`. */
  function NewAlert(text: string, kind: AlertType, duration: Option<int>, now: int): AlertMessage {
    AlertMessage(now, text, kind, duration.GetOr(DefaultDuration))
  }

  /** The queue after dismissing `id`: every alert with that id goes, the others stay in order. */
  function Dismissed(alerts: seq<AlertMessage>, id: int): (r: seq<AlertMessage>)
    ensures forall a :: a in r <==> a in alerts && a.id != id
    ensures |r| <= |alerts|
  {
    Filter(alerts, (a: AlertMessage) => a.id != id)
  }

  /**
   * Dismissing keeps the survivors in the order they were raised: it works
   * piecewise on any split of the queue, and a single alert stays exactly
   * when its id differs.
   */
  lemma DismissedConcat(a: seq<AlertMessage>, b: seq<AlertMessage>, x: AlertMessage, id: int)
    ensures Dismissed(a + b, id) == Dismissed(a, id) + Dismissed(b, id)
    ensures Dismissed([x], id) == if x.id != id then [x] else []
  {
    FilterConcat(a, b, (m: AlertMessage) => m.id != id);
    assert [x][1..] == [];
  }

  /** Dismissing an id that no alert carries changes nothing. */
  lemma DismissUnknown(alerts: seq<AlertMessage>, id: int)
    requires forall i :: 0 <= i < |alerts| ==> alerts[i].id != id
    ensures Dismissed(alerts, id) == alerts
  {
    FilterKeepsAll(alerts, (a: AlertMessage) => a.id != id);
  }

  /** Dismissing twice is dismissing once. */
  lemma DismissIdempotent(alerts: seq<AlertMessage>, id: int)
    ensures Dismissed(Dismissed(alerts, id), id) == Dismissed(alerts, id)
  {
    FilterIdempotent(alerts, (a: AlertMessage) => a.id != id);
  }

  /** Raising an alert and then dismissing it restores the queue, when its id was not in use. */
  lemma RaiseThenDismiss(alerts: seq<AlertMessage>, a: AlertMessage)
    requires forall i :: 0 <= i < |alerts| ==> alerts[i].id != a.id
    ensures Dismissed(alerts + [a], a.id) == alerts
  {
    var keep := (x: AlertMessage) => x.id != a.id;
    FilterConcat(alerts, [a], keep);
    FilterKeepsAll(alerts, keep);
    FilterKeepsNone([a], keep);
  }

  /**
   * Two alerts raised within the same millisecond: the timer of either one
   * dismisses both of them, and nothing else that was queued.
   */
  lemma SameMillisecondDismissedTogether(alerts: seq<AlertMessage>, t1: string, k1: AlertType, d1: Option<int>,
                                         t2: string, k2: AlertType, d2: Option<int>, now: int)
    ensures var both := alerts + [NewAlert(t1, k1, d1, now)] + [NewAlert(t2, k2, d2, now)];
            Dismissed(both, now) == Dismissed(alerts, now)
  {
    var keep := (x: AlertMessage) => x.id != now;
    var added := [NewAlert(t1, k1, d1, now), NewAlert(t2, k2, d2, now)];
    assert alerts + [NewAlert(t1, k1, d1, now)] + [NewAlert(t2, k2, d2, now)] == alerts + added;
    FilterConcat(alerts, added, keep);
    FilterKeepsNone(added, keep);
  }

  /** The alert queue the provider holds and renders. */
  class AlertProvider {
    var alerts: seq<AlertMessage>

    constructor ()
      ensures alerts == []
    {
      alerts := [];
    }

    /** `addAlert`: one alert appended at the end; the duration defaults to three seconds. */
    method AddAlert(text: string, kind: AlertType, duration: Option<int>, now: int)
      modifies this
      ensures alerts == old(alerts) + [NewAlert(text, kind, duration, now)]
      ensures alerts[|alerts| - 1].duration == if duration.Some? then duration.value else 3000
    {
      alerts := alerts + [NewAlert(text, kind, duration, now)];
    }

    /** `removeAlert`, called when an alert's timer ends or it is closed. */
    method RemoveAlert(id: int)
      modifies this
      ensures alerts == Dismissed(old(alerts), id)
    {
      alerts := Filter(alerts, (a: AlertMessage) => a.id != id);
    }
  }

  /** What a call of a hook gives: its value, or the error it throws. */
  datatype Hooked<T> = Value(value: T) | Thrown(message: string)

  /**
   * `useAlert`: the provider's context when the component sits inside an
   * alert provider (`context` present), an error otherwise.
   */
  function UseAlert<C>(context: Option<C>): (r: Hooked<C>)
    ensures r.Value? <==> context.Some?
    ensures r.Value? ==> r.value == context.value
    ensures r.Thrown? ==> r.message == "useAlert must be used within an AlertProvider"
  {
    if context.None? then Thrown("useAlert must be used within an AlertProvider") else Value(context.value)
  }
}
