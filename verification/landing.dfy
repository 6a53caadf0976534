/** The landing page (landing.js): the hero slider and the contact form. */
module Landing {
  import opened Basics
  import opened Text
  import Queries

  // ---------------------------------------------------------------------
  // Hero slider

  /** The slider: how many slides and indicator dots the page has, and the
      `currentSlide` index. */
  datatype Slider = Slider(slides: nat, indicators: nat, current: nat)

  /** `initHeroSlider`: nothing happens on a page without the `#heroSlider`
      element or without slides; otherwise the first slide is shown. */
  function InitSlider(hasSlider: bool, slides: nat, indicators: nat): (r: Option<Slider>)
    ensures r.None? <==> !hasSlider || slides == 0
    ensures r.Some? ==> r.value.slides == slides && r.value.indicators == indicators && r.value.current == 0
  {
    if !hasSlider || slides == 0 then None else Some(Slider(slides, indicators, 0))
  }

  /** The slide marked active: `showSlide` marks `slides[index]` only when it
      exists, so an indicator beyond the last slide leaves none active. */
  function Active(s: Slider): (r: Option<nat>)
    ensures r.Some? <==> s.current < s.slides
    ensures r.Some? ==> r.value == s.current
  {
    if s.current < s.slides then Some(s.current) else None
  }

  /** `showSlide(index)`. */
  function Show(s: Slider, index: nat): Slider
  {
    s.(current := index)
  }

  /** `nextSlide`: one forward, wrapping to the first. */
  function Next(s: Slider): (r: Slider)
    requires s.slides > 0
    ensures r.slides == s.slides && r.indicators == s.indicators && r.current < r.slides
  {
    Show(s, (s.current + 1) % s.slides)
  }

  /** `prevSlide`: one back, wrapping to the last. The index is never negative,
      so JavaScript's remainder agrees with Dafny's here. */
  function Prev(s: Slider): (r: Slider)
    requires s.slides > 0
    ensures r.slides == s.slides && r.indicators == s.indicators && r.current < r.slides
  {
    Show(s, (s.current - 1 + s.slides) % s.slides)
  }

  /** What the user or the autoplay timer does to the slider. */
  datatype SliderEvent =
    | NextButton
    | PrevButton
    | IndicatorClick(index: nat)
    | AutoPlayTick
    | Swipe(startX: int, endX: int)
    | KeyDown(key: string)

  /** The swipe threshold, in pixels. */
  const SwipeThreshold := 50

  /** `handleSwipe`: a swipe longer than the threshold moves forward when the
      finger went left and back when it went right. */
  function HandleSwipe(s: Slider, startX: int, endX: int): Slider
    requires s.slides > 0
  {
    var diff := startX - endX;
    if diff > SwipeThreshold then Next(s)
    else if diff < -SwipeThreshold then Prev(s)
    else s
  }

  /** The slider after one event; an indicator click carries the position of
      a dot on the page. The autoplay restarts that accompany each event are
      timer bookkeeping and do not change the slide. */
  function Step(s: Slider, e: SliderEvent): Slider
    requires s.slides > 0
    requires e.IndicatorClick? ==> e.index < s.indicators
  {
    match e
    case NextButton => Next(s)
    case PrevButton => Prev(s)
    case IndicatorClick(i) => Show(s, i)
    case AutoPlayTick => Next(s)
    case Swipe(a, b) => HandleSwipe(s, a, b)
    case KeyDown(k) => if k == "ArrowLeft" then Prev(s) else if k == "ArrowRight" then Next(s) else s
  }

  /** Every event but an indicator click leaves the index on a real slide, and
      an indicator click selects its own dot's index. */
  lemma StepInRange(s: Slider, e: SliderEvent)
    requires s.slides > 0 && s.current < s.slides
    requires e.IndicatorClick? ==> e.index < s.indicators
    ensures var r := Step(s, e);
            r.slides == s.slides && r.indicators == s.indicators
            && (e.IndicatorClick? ==> r.current == e.index)
            && (!e.IndicatorClick? ==> r.current < r.slides && Active(r) == Some(r.current))
  {
  }

  /** From an indicator beyond the last slide, forward and back still land on
      real slides. */
  lemma StepRecovers(s: Slider)
    requires s.slides > 0
    ensures Active(Next(s)).Some? && Active(Prev(s)).Some?
  {
  }

  lemma MulAtLeast(x: int, n: int)
    requires x >= 1 && n > 0
    ensures x * n >= n
  {
  }

  lemma MulDistrib(q: int, p: int, n: int)
    ensures q * n - p * n == (q - p) * n
  {
  }

  /** Euclidean division has one quotient and remainder. */
  lemma ModOf(a: int, n: int, q: int, r: int)
    requires n > 0 && 0 <= r < n && a == q * n + r
    ensures a % n == r
  {
    var q0, r0 := a / n, a % n;
    assert a == q0 * n + r0;
    MulDistrib(q, q0, n);
    if q > q0 {
      MulAtLeast(q - q0, n);
    } else if q < q0 {
      MulDistrib(q0, q, n);
      MulAtLeast(q0 - q, n);
    }
  }

  /** Forward and back undo each other. */
  lemma NextPrevInverse(s: Slider)
    requires s.slides > 0 && s.current < s.slides
    ensures Prev(Next(s)) == s && Next(Prev(s)) == s
  {
    var n, c := s.slides, s.current;
    if c + 1 < n {
      ModOf(c + 1, n, 0, c + 1);
      ModOf(c + n, n, 1, c);
    } else {
      ModOf(c + 1, n, 1, 0);
      ModOf(n - 1, n, 0, n - 1);
    }
    if c > 0 {
      ModOf(c - 1 + n, n, 1, c - 1);
      ModOf(c, n, 0, c);
    } else {
      ModOf(n - 1, n, 0, n - 1);
      ModOf(n, n, 1, 0);
    }
  }

  /** `k` autoplay ticks in a row. */
  function Advance(s: Slider, k: nat): Slider
    requires s.slides > 0
  {
    if k == 0 then s else Next(Advance(s, k - 1))
  }

  /** One step past a remainder is the remainder of one more. */
  lemma ModSucc(a: nat, n: nat)
    requires n > 0
    ensures (a % n + 1) % n == (a + 1) % n
  {
    var q, r := a / n, a % n;
    assert a == q * n + r;
    if r + 1 < n {
      ModOf(r + 1, n, 0, r + 1);
      ModOf(a + 1, n, q, r + 1);
    } else {
      ModOf(r + 1, n, 1, 0);
      assert a + 1 == (q + 1) * n + 0;
      ModOf(a + 1, n, q + 1, 0);
    }
  }

  /** After `k` ticks the slider shows slide `(current + k) mod slides`. */
  lemma {:induction false} AdvanceIndex(s: Slider, k: nat)
    requires s.slides > 0 && s.current < s.slides
    ensures Advance(s, k) == s.(current := (s.current + k) % s.slides)
  {
    if k > 0 {
      AdvanceIndex(s, k - 1);
      ModSucc(s.current + k - 1, s.slides);
    }
  }

  /** Autoplay cycles: after as many ticks as there are slides it is back
      where it started. */
  lemma AdvanceCycle(s: Slider)
    requires s.slides > 0 && s.current < s.slides
    ensures Advance(s, s.slides) == s
  {
    AdvanceIndex(s, s.slides);
    ModOf(s.current + s.slides, s.slides, 1, s.current);
  }

  /** A long swipe is undone by the same swipe in the opposite direction, and
      a short one does nothing. */
  lemma SwipeBack(s: Slider, a: int, b: int)
    requires s.slides > 0 && s.current < s.slides
    ensures a - b > SwipeThreshold || b - a > SwipeThreshold
            ==> HandleSwipe(HandleSwipe(s, a, b), b, a) == s
    ensures -SwipeThreshold <= a - b <= SwipeThreshold ==> HandleSwipe(s, a, b) == s
  {
    NextPrevInverse(s);
  }

  // ---------------------------------------------------------------------
  // Contact form

  /** The form's fields as read; `None` when the input element is missing
      (`?.value` is then `undefined`). */
  datatype ContactFields = ContactFields(name: Option<string>, email: Option<string>, phone: Option<string>, message: Option<string>)

  /** The handler's checks: refused, or the argument it passes to
      `api.createQuery`. */
  datatype ContactResult = Refused | Passed(body: Queries.QueryBody)

  /** The checks of the submit handler: every field trimmed, refused unless
      name, email and message are non-empty, otherwise the trimmed fields are
      the argument of `createQuery` (an `undefined` phone is left out of the
      JSON body). */
  function SubmitContact(f: ContactFields): (r: ContactResult)
    ensures r.Refused? <==> f.name.None? || Trim(f.name.value) == "" || f.email.None? || Trim(f.email.value) == ""
                            || f.message.None? || Trim(f.message.value) == ""
    ensures r.Passed? ==> r.body == Queries.QueryBody(Queries.TrimField(f.name), Queries.TrimField(f.email), Queries.TrimField(f.phone), Queries.TrimField(f.message))
  {
    var name, email, phone, message := Queries.TrimField(f.name), Queries.TrimField(f.email), Queries.TrimField(f.phone), Queries.TrimField(f.message);
    if !Queries.Present(name) || !Queries.Present(email) || !Queries.Present(message) then Refused
    else Passed(Queries.QueryBody(name, email, phone, message))
  }

  /** The form refuses exactly the trimmed bodies the server would answer
      400. */
  lemma ContactRefusedLikeServer(f: ContactFields)
    ensures SubmitContact(f).Refused?
            <==> Queries.SubmitQuery(Queries.QueryBody(Queries.TrimField(f.name), Queries.TrimField(f.email), Queries.TrimField(f.phone), Queries.TrimField(f.message))).BadRequest?
  {
  }

  const ContactRequired: string := "Please fill in all required fields."
  const ContactThanks: string := "Thank you! Your message has been sent."

  /** The whole submit handler against a client module exporting `exports`:
      the checks, then the call inside `try`/`catch`. */
  function HandleContact(f: ContactFields, exports: set<string>): (r: Queries.Submit)
    ensures SubmitContact(f).Refused? ==> r == Queries.Refuse(ContactRequired)
    ensures SubmitContact(f).Passed? ==> r == Queries.TryCall(exports, SubmitContact(f).body, ContactThanks)
  {
    match SubmitContact(f)
    case Refused => Queries.Refuse(ContactRequired)
    case Passed(body) => Queries.TryCall(exports, body, ContactThanks)
  }

  /** As written, `api.js` has no `createQuery`: no submit reaches the
      server, and one that passes the checks ends on "Something went wrong". */
  lemma ContactNeverSent(f: ContactFields)
    ensures var r := HandleContact(f, Queries.ApiJsExports);
            r.request.None? && r.stored.None? && r.status.isError
    ensures SubmitContact(f).Passed?
            ==> HandleContact(f, Queries.ApiJsExports).status == Queries.Status(Queries.TryAgain, true)
  {
    Queries.CreateQueryMissing();
  }

  /** With the intended `createQuery`, what the form passes is stored as
      passed: the server's own trimming changes nothing, only an empty phone
      becomes `null`, and the form thanks the user. */
  lemma ContactStoredAsSent(f: ContactFields)
    requires SubmitContact(f).Passed?
    ensures var b := SubmitContact(f).body;
            Queries.SubmitQuery(b)
            == Queries.Created(Queries.StoredQuery(b.name.value, b.email.value,
                                                   if Queries.Present(b.phone) then b.phone else None,
                                                   b.message.value))
    ensures var b := SubmitContact(f).body;
            HandleContact(f, Queries.IntendedExports)
            == Queries.Submit(Queries.Status(ContactThanks, false), Some(b),
                              Some(Queries.StoredQuery(b.name.value, b.email.value,
                                                       if Queries.Present(b.phone) then b.phone else None,
                                                       b.message.value)))
  {
    Queries.CreateQueryMissing();
    TrimIdempotent(f.name.value);
    TrimIdempotent(f.email.value);
    TrimIdempotent(f.message.value);
    if f.phone.Some? {
      TrimIdempotent(f.phone.value);
    }
  }
}
