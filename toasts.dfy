/** `useToast`: a queue of toasts. Each `toast` call appends one entry and arms a timer;
    each timer, when it fires three seconds later, drops the first entry. Time is not
    modelled: a firing timer is the `Expire` step. */
module Toasts {
  import opened Wrappers

  datatype Variant = Default | Destructive

  datatype Toast = Toast(title: Option<string>, description: Option<string>, variant: Variant)

  /** Milliseconds before a toast's timer fires. */
  const DismissAfter: nat := 3000

  /** The entry `toast` appends: the variant defaults to `Default`. */
  function Entry(title: Option<string>, description: Option<string>, variant: Option<Variant>): (t: Toast)
    ensures t.title == title && t.description == description
    ensures variant.None? ==> t.variant == Default
    ensures variant.Some? ==> t.variant == variant.value
  {
    Toast(title, description, variant.GetOr(Default))
  }

  /** `prev.slice(1)`: the queue without its oldest entry; empty stays empty. */
  function Dismissed(q: seq<Toast>): (r: seq<Toast>)
    ensures q == [] ==> r == []
    ensures q != [] ==> q == [q[0]] + r
  {
    if q == [] then [] else q[1..]
  }

  /** `k` dismissals. */
  function DismissedTimes(q: seq<Toast>, k: nat): seq<Toast>
    decreases k
  {
    if k == 0 then q else DismissedTimes(Dismissed(q), k - 1)
  }

  /** Dismissals take the oldest entries first: `k` of them leave the entries after the
      first `k`. */
  lemma {:induction false} DismissedTimesDrops(q: seq<Toast>, k: nat)
    requires k <= |q|
    ensures DismissedTimes(q, k) == q[k..]
    decreases k
  {
    if k > 0 {
      DismissedTimesDrops(q[1..], k - 1);
      assert q[1..][k - 1..] == q[k..];
    }
  }

  /** After the toasts already shown have expired, exactly the later ones remain, in the
      order they were raised. */
  lemma FirstInFirstOut(shown: seq<Toast>, later: seq<Toast>)
    ensures DismissedTimes(shown + later, |shown|) == later
  {
    DismissedTimesDrops(shown + later, |shown|);
    assert (shown + later)[|shown|..] == later;
  }

  class ToastQueue {
    var toasts: seq<Toast>
    /** Timers armed and not yet fired. */
    var armed: nat

    /** One armed timer per entry: every entry will expire, and no timer fires on an
        empty queue. */
    predicate Valid()
      reads this
    {
      |toasts| == armed
    }

    constructor ()
      ensures Valid() && toasts == [] && armed == 0
    {
      toasts, armed := [], 0;
    }

    /** `toast`: one entry at the end, and one more timer. */
    method Raise(title: Option<string>, description: Option<string>, variant: Option<Variant>)
      requires Valid()
      modifies this
      ensures Valid()
      ensures toasts == old(toasts) + [Entry(title, description, variant)]
    {
      toasts := toasts + [Entry(title, description, variant)];
      armed := armed + 1;
    }

    /** A timer fires: the oldest entry goes. */
    method Expire()
      requires Valid() && armed > 0
      modifies this
      ensures Valid()
      ensures toasts == Dismissed(old(toasts)) && toasts == old(toasts)[1..]
    {
      toasts := Dismissed(toasts);
      armed := armed - 1;
    }
  }

  /** Two toasts, then the first timer: the second toast is left. */
  method TwoToastsOneExpiry() returns (q: ToastQueue)
    ensures q.toasts == [Toast(Some("b"), None, Default)]
  {
    q := new ToastQueue();
    q.Raise(Some("a"), None, Some(Destructive));
    q.Raise(Some("b"), None, None);
    q.Expire();
  }
}
