/** The growing waits before a standing warning is acted on again: main/warning_handler.c. */
module WarningHandler {
  const WORD: nat := 0x1_0000_0000
  const MAX_HANDLERS: nat := 32
  const THRESHOLD_DEFAULT: nat := 30
  const THRESHOLD_MAX: nat := 86400

  /** Warning masks as sets of bit numbers. */
  type Mask = set<nat>

  datatype Handler = Handler(mask: Mask, count: nat, threshold: nat, events: nat)

  // ----- the threshold

  /** The product in an unsigned 32-bit word, which wraps around. */
  function Product(events: nat): (p: nat)
    ensures p < WORD
  {
    if events == 0 then THRESHOLD_DEFAULT else Product(events - 1) * 3 % WORD
  }

  function Backoff(events: nat): nat {
    if Product(events) > THRESHOLD_MAX then THRESHOLD_MAX else Product(events)
  }

  function Power(n: nat): (p: nat)
    ensures p > 0
  {
    if n == 0 then 1 else 3 * Power(n - 1)
  }

  function Intended(events: nat): nat {
    if THRESHOLD_DEFAULT * Power(events) > THRESHOLD_MAX then THRESHOLD_MAX else THRESHOLD_DEFAULT * Power(events)
  }

  lemma TwoModuloFour(r: nat, k: int)
    requires r == 4 * k + 2
    ensures r % 4 == 2
  {}

  lemma DivideWord(x: nat, q: nat, r: nat)
    requires q == x / WORD && r == x % WORD
    ensures x == q * WORD + r
  {}

  lemma TimesThree(p: nat, k: nat, r: nat)
    requires p == 4 * k + 2 && r == p * 3 % WORD
    ensures r % 4 == 2
  {
    var q := p * 3 / WORD;
    DivideWord(p * 3, q, r);
    TwoModuloFour(r, 3 * k + 1 - q * 0x4000_0000);
  }

  /** Wrapping never brings the product to zero: it stays 2 modulo 4. */
  lemma {:induction false} BackoffBounds(events: nat)
    ensures Product(events) % 4 == 2
    ensures 2 <= Backoff(events) <= THRESHOLD_MAX
  {
    if events > 0 {
      BackoffBounds(events - 1);
      TimesThree(Product(events - 1), Product(events - 1) / 4, Product(events));
    }
  }

  lemma WrappedTwice(a: nat, b: nat)
    ensures a % WORD * b % WORD == a * b % WORD
  {
    var q := a / WORD;
    assert a == q * WORD + a % WORD;
    assert a * b == (q * b) * WORD + a % WORD * b;
    AddMultiple(a % WORD * b, q * b);
  }

  lemma AddMultiple(x: nat, k: nat)
    ensures (k * WORD + x) % WORD == x % WORD
  {
    var q := x / WORD;
    assert k * WORD + x == (k + q) * WORD + x % WORD;
  }

  lemma {:induction false} ProductIsWrapped(events: nat)
    ensures Product(events) == THRESHOLD_DEFAULT * Power(events) % WORD
  {
    if events > 0 {
      ProductIsWrapped(events - 1);
      WrappedTwice(THRESHOLD_DEFAULT * Power(events - 1), 3);
    }
  }

  lemma {:induction false} PowerGrows(n: nat, m: nat)
    requires n <= m
    ensures Power(n) <= Power(m)
  {
    if n < m {
      PowerGrows(n, m - 1);
    }
  }

  lemma FewEvents(events: nat)
    requires events <= 17
    ensures Product(events) == THRESHOLD_DEFAULT * Power(events)
    ensures events < 8 ==> Product(events) <= THRESHOLD_MAX
  {
    ProductIsWrapped(events);
    SmallPowers();
    PowerGrows(events, 17);
    if events < 8 {
      PowerGrows(events, 7);
    }
    hide Power, Product;
  }

  lemma ManyEvents(events: nat)
    requires events >= 8
    ensures Intended(events) == THRESHOLD_MAX
    ensures THRESHOLD_DEFAULT * Power(events) > THRESHOLD_MAX
  {
    SmallPowers();
    PowerGrows(8, events);
    hide Power;
  }

  /**
   * The wait is min(30 * 3^e, 86400) as intended exactly while 30 * 3^e, cut to 32 bits, is not small
   * again; that is so for the first seventeen events.
   */
  lemma BackoffExactly(events: nat)
    ensures Backoff(events) == Intended(events)
            <==> events < 8 || THRESHOLD_DEFAULT * Power(events) % WORD >= THRESHOLD_MAX
    ensures events <= 17 ==> Backoff(events) == Intended(events)
  {
    ProductIsWrapped(events);
    hide Power, Product;
    if events <= 17 {
      FewEvents(events);
    }
    if events >= 8 {
      ManyEvents(events);
    }
  }

  lemma SmallPowers()
    ensures Power(7) == 2187 && Power(8) == 6561 && Power(17) == 129140163
  {
    assert Power(2) == 9 && Power(4) == 81 && Power(6) == 729;
    assert Power(10) == 59049 && Power(12) == 531441 && Power(14) == 4782969 && Power(16) == 43046721;
  }

  // ----- a count for which it goes wrong

  lemma {:induction false} PowerAdds(a: nat, b: nat)
    ensures Power(a + b) == Power(a) * Power(b)
  {
    if a > 0 {
      PowerAdds(a - 1, b);
    }
  }

  function Wrapped(x: nat): nat {
    x % WORD
  }

  lemma SplitWord(x: nat) returns (a: nat)
    ensures x == a * WORD + Wrapped(x)
  {
    a := x / WORD;
  }

  lemma JoinWord(a: nat, r: nat)
    requires r < WORD
    ensures Wrapped(a * WORD + r) == r
  {
    AddMultiple(r, a);
  }

  lemma Square(x: nat, a: nat, r: nat, q: nat, s: nat)
    requires x == a * WORD + r && r * r == q * WORD + s
    ensures x * x == (a * x + a * r + q) * WORD + s
  {
    assert x * x == a * WORD * x + r * x;
    assert r * x == r * (a * WORD) + r * r;
  }

  lemma Doubled(n: nat, r: nat, q: nat, s: nat)
    requires Wrapped(Power(n)) == r
    requires r * r == q * WORD + s && s < WORD
    ensures Wrapped(Power(2 * n)) == s
  {
    hide Wrapped, Power;
    var x := Power(n);
    PowerAdds(n, n);
    var a := SplitWord(x);
    Square(x, a, r, q, s);
    JoinWord(a * x + a * r + q, s);
  }

  lemma OneMore(n: nat, r: nat, q: nat, s: nat)
    requires Wrapped(Power(n)) == r
    requires r * 3 == q * WORD + s && s < WORD
    ensures Wrapped(Power(n + 1)) == s
  {
    hide Wrapped;
    var a := SplitWord(Power(n));
    assert Power(n + 1) == (3 * a + q) * WORD + s;
    JoinWord(3 * a + q, s);
  }

  lemma FirstPower()
    ensures Wrapped(Power(1)) == 3
  {}

  lemma PowerOf12474()
    ensures Wrapped(Power(12474)) == 2863311977
  {
    hide Wrapped, Power;
    FirstPower();
    Doubled(1, 3, 0, 9);
    OneMore(2, 9, 0, 27);
    Doubled(3, 27, 0, 729);
    Doubled(6, 729, 0, 531441);
    Doubled(12, 531441, 65, 3256662241);
    Doubled(24, 3256662241, 2469366637, 4206638529);
    Doubled(48, 4206638529, 4120126299, 4072766337);
    OneMore(96, 4072766337, 2, 3628364419);
    Doubled(97, 3628364419, 3065222026, 416345865);
    Doubled(194, 416345865, 40359766, 4258385489);
    OneMore(388, 4258385489, 2, 4185221875);
    Doubled(389, 4185221875, 4078280679, 2764841641);
    OneMore(778, 2764841641, 1, 3999557627);
    Doubled(779, 3999557627, 3724466360, 441708569);
    OneMore(1558, 441708569, 0, 1325125707);
    Doubled(1559, 1325125707, 408840863, 3498833401);
    Doubled(3118, 3498833401, 2850274361, 2830928945);
    OneMore(6236, 2830928945, 1, 4197819539);
    Doubled(6237, 4197819539, 4102869164, 2863311977);
  }

  /** After 12474 events the wait would drop from a day to under four hours. */
  lemma WrapsAround()
    ensures Backoff(12474) == 13390 && Intended(12474) == THRESHOLD_MAX
  {
    hide Power, Product;
    PowerOf12474();
    ProductIsWrapped(12474);
    WrappedTwice(Power(12474), THRESHOLD_DEFAULT);
    ManyEvents(12474);
  }

  // ----- ticks

  predicate Sound(h: Handler) {
    h.count <= h.threshold && 2 <= h.threshold <= THRESHOLD_MAX && h.threshold == Backoff(h.events)
  }

  /** The tick that acts on the warning. */
  predicate Fires(h: Handler, warned: bool) {
    warned && h.count == h.threshold
  }

  function Ticked(h: Handler, warned: bool): Handler {
    if !warned then h.(count := 0)
    else if h.count == h.threshold then
      var events := (h.events + 1) % WORD;
      h.(events := events, threshold := Backoff(events), count := 0)
    else h.(count := h.count + 1)
  }

  /** The handler before tick `k`. */
  function At(h: Handler, warned: seq<bool>, k: nat): Handler
    requires k <= |warned|
  {
    if k == 0 then h else Ticked(At(h, warned, k - 1), warned[k - 1])
  }

  predicate FiresAt(h: Handler, warned: seq<bool>, k: nat)
    requires k < |warned|
  {
    Fires(At(h, warned, k), warned[k])
  }

  lemma TickedSound(h: Handler, warned: bool)
    requires Sound(h)
    ensures Sound(Ticked(h, warned))
  {
    BackoffBounds((h.events + 1) % WORD);
    hide Backoff;
  }

  lemma {:induction false} RunSound(h: Handler, warned: seq<bool>, k: nat)
    requires Sound(h) && k <= |warned|
    ensures Sound(At(h, warned, k))
  {
    hide Sound, Ticked;
    if k > 0 {
      RunSound(h, warned, k - 1);
      TickedSound(At(h, warned, k - 1), warned[k - 1]);
    }
  }

  /** After firing, the count starts over and can only follow the ticks. */
  lemma {:induction false} CountFollows(h: Handler, warned: seq<bool>, i: nat, k: nat)
    requires Sound(h) && i < k <= |warned| && FiresAt(h, warned, i)
    requires k - i - 1 <= At(h, warned, i + 1).threshold
    ensures var a := At(h, warned, k); a.threshold == At(h, warned, i + 1).threshold && a.count <= k - i - 1
    ensures (forall m :: i < m < k ==> warned[m]) ==> At(h, warned, k).count == k - i - 1
    ensures forall m :: i < m < k ==> !FiresAt(h, warned, m)
  {
    hide Backoff;
    if k > i + 1 {
      CountFollows(h, warned, i, k - 1);
    }
  }

  /** Over every sequence of ticks: two actions lie at least the set threshold plus one apart. */
  lemma ActionsAreSpaced(h: Handler, warned: seq<bool>, i: nat, j: nat)
    requires Sound(h) && i < j < |warned| && FiresAt(h, warned, i) && FiresAt(h, warned, j)
    ensures j - i >= At(h, warned, i + 1).threshold + 1
  {
    var threshold := At(h, warned, i + 1).threshold;
    if j - i < threshold + 1 {
      CountFollows(h, warned, i, j);
    }
  }

  /** And under a standing warning the next action comes exactly then. */
  lemma StandingWarningFires(h: Handler, warned: seq<bool>, i: nat, j: nat)
    requires Sound(h) && i < j < |warned| && FiresAt(h, warned, i)
    requires j == i + At(h, warned, i + 1).threshold + 1
    requires forall m :: i < m <= j ==> warned[m]
    ensures FiresAt(h, warned, j)
    ensures forall m :: i < m < j ==> !FiresAt(h, warned, m)
  {
    CountFollows(h, warned, i, j);
  }

  /** The actions taken before tick `k`. */
  function Actions(h: Handler, warned: seq<bool>, k: nat): (n: nat)
    requires k <= |warned|
    ensures n <= k
  {
    if k == 0 then 0 else Actions(h, warned, k - 1) + if FiresAt(h, warned, k - 1) then 1 else 0
  }

  lemma CountUp(a: nat, n: nat)
    ensures ((a + n) % WORD + 1) % WORD == (a + (n + 1)) % WORD
  {
    var q := (a + n) / WORD;
    assert a + n == q * WORD + (a + n) % WORD;
    AddMultiple((a + n) % WORD + 1, q);
  }

  /** Since it was installed or reset, every action has been counted, and the wait has grown with each. */
  lemma {:induction false} WaitGrowsWithActions(h: Handler, warned: seq<bool>, k: nat)
    requires Sound(h) && h.events == 0 && k <= |warned|
    ensures var n := Actions(h, warned, k);
            && At(h, warned, k).events == n % WORD && At(h, warned, k).threshold == Backoff(n % WORD)
            && At(h, warned, k).mask == h.mask
            && (n <= 17 ==> At(h, warned, k).threshold == Intended(n))
  {
    hide Backoff, Intended;
    if k > 0 {
      WaitGrowsWithActions(h, warned, k - 1);
      CountUp(0, Actions(h, warned, k - 1));
    }
    BackoffExactly(Actions(h, warned, k));
  }

  lemma {:induction false} CountStands(h: Handler, warned: seq<bool>, k: nat)
    requires h.count == 0 && k <= |warned|
    ensures var n := At(h, warned, k).count; n <= k && forall i | k - n <= i < k :: warned[i]
  {
    if k > 0 {
      CountStands(h, warned, k - 1);
    }
  }

  /** Nothing is acted on unless it has stood for the whole wait. */
  lemma ActsOnStandingWarning(h: Handler, warned: seq<bool>, k: nat)
    requires h.count == 0 && k < |warned| && FiresAt(h, warned, k)
    ensures var n := At(h, warned, k).threshold; n <= k && forall i | k - n <= i <= k :: warned[i]
  {
    CountStands(h, warned, k);
  }

  /** A warning that stands from tick `i` on, nothing counted yet, is acted on when the wait is over, not before. */
  lemma {:induction false} ActsInTime(h: Handler, warned: seq<bool>, i: nat, k: nat)
    requires Sound(h) && i <= k < |warned| && At(h, warned, i).count == 0 && forall m | i <= m <= k :: warned[m]
    requires k - i <= At(h, warned, i).threshold
    ensures At(h, warned, k).count == k - i && At(h, warned, k).threshold == At(h, warned, i).threshold
    ensures FiresAt(h, warned, k) <==> k - i == At(h, warned, i).threshold
    decreases k
  {
    hide Backoff;
    if k > i {
      ActsInTime(h, warned, i, k - 1);
    }
  }

  /** A tick without the warning starts the count over. */
  lemma QuietTickForgets(h: Handler, warned: seq<bool>, k: nat)
    requires k < |warned| && !warned[k]
    ensures At(h, warned, k + 1).count == 0 && !FiresAt(h, warned, k)
    ensures At(h, warned, k + 1).events == At(h, warned, k).events
  {}

  // ----- the code

  class WarningHandlers {
    const handlers: array<Handler>
    var handlerCount: nat

    ghost predicate Valid()
      reads this, handlers
    {
      && handlerCount <= handlers.Length == MAX_HANDLERS
      && forall i :: 0 <= i < handlerCount ==> Sound(handlers[i])
    }

    constructor ()
      ensures Valid() && fresh(handlers) && handlerCount == 0
    {
      handlers := new Handler[MAX_HANDLERS](_ => Handler({}, 0, 0, 0));
      handlerCount := 0;
    }

    method Install(mask: Mask) returns (installed: bool)
      requires Valid()
      modifies this, handlers
      ensures Valid()
      ensures installed <==> old(handlerCount) < MAX_HANDLERS
      ensures handlers[..handlerCount]
              == old(handlers[..handlerCount]) + if installed then [Handler(mask, 0, THRESHOLD_DEFAULT, 0)] else []
    {
      if handlerCount >= MAX_HANDLERS {
        return false;
      }
      handlers[handlerCount] := Handler(mask, 0, THRESHOLD_DEFAULT, 0);
      handlerCount := handlerCount + 1;
      return true;
    }

    method Reset()
      requires Valid()
      modifies handlers
      ensures Valid()
      ensures forall i :: 0 <= i < handlerCount ==>
                handlers[i] == Handler(old(handlers[i]).mask, 0, THRESHOLD_DEFAULT, 0)
    {
      var i := 0;
      while i < handlerCount
        invariant 0 <= i <= handlerCount
        invariant forall k :: 0 <= k < handlerCount ==>
                    handlers[k] == if k < i then Handler(old(handlers[k]).mask, 0, THRESHOLD_DEFAULT, 0)
                                   else old(handlers[k])
      {
        handlers[i] := handlers[i].(count := 0, events := 0, threshold := THRESHOLD_DEFAULT);
        i := i + 1;
      }
    }

    /** Every handler takes its tick; `handled` says that one of them acted. */
    method Tick(warnings: Mask) returns (handled: bool)
      requires Valid()
      modifies handlers
      ensures Valid()
      ensures forall i :: 0 <= i < handlerCount ==>
                handlers[i] == Ticked(old(handlers[i]), old(handlers[i]).mask * warnings != {})
      ensures handled <==> exists i | 0 <= i < handlerCount ::
                Fires(old(handlers[i]), old(handlers[i]).mask * warnings != {})
    {
      hide Sound, Backoff;
      handled := false;
      var i := 0;
      while i < handlerCount
        invariant 0 <= i <= handlerCount
        invariant forall k :: 0 <= k < handlerCount ==>
                    handlers[k] == if k < i then Ticked(old(handlers[k]), old(handlers[k]).mask * warnings != {})
                                   else old(handlers[k])
        invariant handled <==> exists k | 0 <= k < i :: Fires(old(handlers[k]), old(handlers[k]).mask * warnings != {})
      {
        var w := handlers[i];
        if w.mask * warnings != {} {
          if w.count == w.threshold {
            handled := true;
            var events := (w.events + 1) % WORD;
            var threshold := GetBackoff(events);
            w := w.(events := events, threshold := threshold, count := 0);
          } else {
            w := w.(count := w.count + 1);
          }
        } else if w.count > 0 {
          w := w.(count := 0);
        }
        handlers[i] := w;
        i := i + 1;
      }
      forall k | 0 <= k < handlerCount ensures Sound(handlers[k]) {
        TickedSound(old(handlers[k]), old(handlers[k]).mask * warnings != {});
      }
    }
  }

  method GetBackoff(events: nat) returns (backoff: nat)
    ensures backoff == Backoff(events)
  {
    backoff := THRESHOLD_DEFAULT;
    var i := 0;
    while i < events
      invariant 0 <= i <= events
      invariant backoff == Product(i)
    {
      backoff := backoff * 3 % WORD;
      i := i + 1;
    }
    if backoff > THRESHOLD_MAX {
      backoff := THRESHOLD_MAX;
    }
  }
}
