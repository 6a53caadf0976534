/** The rental-partner inquiry form (rentals.js): its checks, the message it
    assembles, and the contact query it would post. */
module Rentals {
  import opened Basics
  import opened Text
  import Queries
  import Seqs

  /** The form as read; `None` for a missing element (its `?.value` or
      `?.checked` is then `undefined`). */
  datatype RentalFields = RentalFields(
    name: Option<string>,
    company: Option<string>,
    website: Option<string>,
    city: Option<string>,
    country: Option<string>,
    email: Option<string>,
    phone: Option<string>,
    message: Option<string>,
    consent: Option<bool>)

  /** The handler's checks: which one failed, or the argument it passes to
      `api.createQuery`. */
  datatype RentalResult = MissingFields | NoConsent | Passed(body: Queries.QueryBody)

  /** JavaScript truthiness of an optional text. */
  predicate Filled(x: Option<string>)
  {
    x.Some? && x.value != ""
  }

  /** `x || ''`, for the optional fields. */
  function OrEmpty(x: Option<string>): string
  {
    if x.None? then "" else x.value
  }

  const InquiryHeader: string := "Rental Partner Inquiry"
  const NotProvided: string := "Not provided"

  /** A line followed by more text. */
  function Line(l: string, rest: string): string
  {
    l + "\n" + rest
  }

  /** Lines, each ended by a line break, in front of a tail. */
  function Lines(ls: seq<string>, tail: string): string
  {
    if |ls| == 0 then tail else Line(ls[0], Lines(ls[1..], tail))
  }

  /** The lines of the inquiry before the free text. */
  function FieldLines(company: string, website: string, city: string, country: string, phone: string): seq<string>
  {
    [InquiryHeader, "", "Company: " + company, "Website: " + (if website == "" then NotProvided else website),
     "City: " + city, "Country: " + country, "Phone: " + phone]
  }

  /** `fullMessage`: the header, a blank line, one line per field, and the
      free text under "Message:" when there is some. */
  function FullMessage(company: string, website: string, city: string, country: string, phone: string, message: string): string
  {
    Lines(FieldLines(company, website, city, country, phone), if message != "" then "\nMessage:\n" + message else "")
  }

  /** The checks of the submit handler and the argument it builds for
      `createQuery`. Every text field is trimmed except the country, a
      select; the required fields are checked first, the consent box
      second. */
  function SubmitRental(f: RentalFields): (r: RentalResult)
    ensures r.MissingFields? <==> !Filled(Queries.TrimField(f.name)) || !Filled(Queries.TrimField(f.company))
                                  || !Filled(Queries.TrimField(f.city)) || !Filled(f.country)
                                  || !Filled(Queries.TrimField(f.email)) || !Filled(Queries.TrimField(f.phone))
    ensures r.NoConsent? <==> !r.MissingFields? && f.consent != Some(true)
    ensures r.Passed? ==> r.body.name == Queries.TrimField(f.name) && r.body.email == Queries.TrimField(f.email)
                          && r.body.phone == Queries.TrimField(f.phone) && Queries.Present(r.body.message)
    ensures r.Passed? ==> r.body.message
                          == Some(FullMessage(Queries.TrimField(f.company).value, OrEmpty(Queries.TrimField(f.website)),
                                              Queries.TrimField(f.city).value, f.country.value,
                                              Queries.TrimField(f.phone).value, OrEmpty(Queries.TrimField(f.message))))
  {
    var name, company := Queries.TrimField(f.name), Queries.TrimField(f.company);
    var website, city := Queries.TrimField(f.website), Queries.TrimField(f.city);
    var email, phone := Queries.TrimField(f.email), Queries.TrimField(f.phone);
    var message := Queries.TrimField(f.message);
    if !Filled(name) || !Filled(company) || !Filled(city) || !Filled(f.country) || !Filled(email) || !Filled(phone) then
      MissingFields
    else if f.consent != Some(true) then NoConsent
    else
      var text := FullMessage(company.value, OrEmpty(website), city.value, f.country.value, phone.value, OrEmpty(message));
      assert text[0] == InquiryHeader[0];
      Passed(Queries.QueryBody(name, email, phone, Some(text)))
  }

  // ---------------------------------------------------------------------
  // Reading the message back

  /** Text cut at line breaks after a line without one: that line, then the
      rest's lines. */
  lemma SplitLine(l: string, rest: string)
    requires '\n' !in l
    ensures Split(Line(l, rest), "\n") == [l] + Split(rest, "\n")
  {
    CharSepFree(l, '\n');
    SplitPiece(l, "\n", rest);
  }

  /** The message's tail: nothing, or a blank line, "Message:" and the text. */
  lemma TailLines(message: string)
    ensures Split(if message != "" then "\nMessage:\n" + message else "", "\n")
            == if message != "" then ["", "Message:"] + Split(message, "\n") else [""]
  {
    if message != "" {
      assert "\nMessage:\n" + message == Line("", Line("Message:", message));
      SplitLine("", Line("Message:", message));
      SplitLine("Message:", message);
    }
  }

  /** Text made of lines without line breaks splits back into those lines
      and the tail's own lines. */
  lemma {:induction false} SplitLines(ls: seq<string>, tail: string)
    requires forall k :: 0 <= k < |ls| ==> '\n' !in ls[k]
    ensures Split(Lines(ls, tail), "\n") == ls + Split(tail, "\n")
    decreases |ls|
  {
    if |ls| > 0 {
      var rest := ls[1..];
      assert forall k :: 0 <= k < |rest| ==> rest[k] == ls[k + 1];
      SplitLines(rest, tail);
      assert Lines(ls, tail) == Line(ls[0], Lines(rest, tail));
      SplitLine(ls[0], Lines(rest, tail));
      assert ls == [ls[0]] + rest;
      Seqs.AppendAssoc([ls[0]], rest, Split(tail, "\n"));
    }
  }

  /** A labelled field line holds no line break when the value holds none. */
  lemma LabelledLine(tag: string, value: string)
    requires '\n' !in tag && '\n' !in value
    ensures '\n' !in tag + value
  {
  }

  /** With single-line fields (text inputs and a select cannot hold a line
      break), the message reads back line by line: the header, a blank line,
      the five field lines in order, then either a final empty line or a blank
      line, "Message:" and the free text's own lines. */
  lemma InquiryLines(company: string, website: string, city: string, country: string, phone: string, message: string)
    requires '\n' !in company && '\n' !in website && '\n' !in city && '\n' !in country && '\n' !in phone
    ensures var w := if website == "" then NotProvided else website;
            Split(FullMessage(company, website, city, country, phone, message), "\n")
            == [InquiryHeader, "", "Company: " + company, "Website: " + w, "City: " + city, "Country: " + country, "Phone: " + phone]
               + (if message != "" then ["", "Message:"] + Split(message, "\n") else [""])
  {
    var w := if website == "" then NotProvided else website;
    LabelledLine("Company: ", company);
    LabelledLine("Website: ", w);
    LabelledLine("City: ", city);
    LabelledLine("Country: ", country);
    LabelledLine("Phone: ", phone);
    var ls := FieldLines(company, website, city, country, phone);
    assert forall k :: 0 <= k < |ls| ==> '\n' !in ls[k];
    SplitLines(ls, if message != "" then "\nMessage:\n" + message else "");
    TailLines(message);
  }

  /** The Website line says "Not provided" exactly when no website was given. */
  lemma WebsiteLine(company: string, website: string, city: string, country: string, phone: string, message: string)
    requires '\n' !in company && '\n' !in website && '\n' !in city && '\n' !in country && '\n' !in phone
    ensures var lines := Split(FullMessage(company, website, city, country, phone, message), "\n");
            |lines| > 3 && lines[3] == "Website: " + (if website == "" then NotProvided else website)
  {
    InquiryLines(company, website, city, country, phone, message);
  }

  // ---------------------------------------------------------------------
  // The call and what the server stores

  const RentalRequired: string := "Please fill in all required fields."
  const RentalConsent: string := "Please agree to the privacy policy and terms and conditions."
  const RentalThanks: string := "Thank you! Your rental partner inquiry has been sent. We will get back to you shortly."

  /** The whole submit handler against a client module exporting `exports`:
      the two checks, then the call inside `try`/`catch`. */
  function HandleRental(f: RentalFields, exports: set<string>): (r: Queries.Submit)
    ensures SubmitRental(f).MissingFields? ==> r == Queries.Refuse(RentalRequired)
    ensures SubmitRental(f).NoConsent? ==> r == Queries.Refuse(RentalConsent)
    ensures SubmitRental(f).Passed? ==> r == Queries.TryCall(exports, SubmitRental(f).body, RentalThanks)
  {
    match SubmitRental(f)
    case MissingFields => Queries.Refuse(RentalRequired)
    case NoConsent => Queries.Refuse(RentalConsent)
    case Passed(body) => Queries.TryCall(exports, body, RentalThanks)
  }

  /** As written, `api.js` has no `createQuery`: no inquiry reaches the
      server, and one that passes both checks ends on "Something went
      wrong". */
  lemma RentalNeverSent(f: RentalFields)
    ensures var r := HandleRental(f, Queries.ApiJsExports);
            r.request.None? && r.stored.None? && r.status.isError
    ensures SubmitRental(f).Passed?
            ==> HandleRental(f, Queries.ApiJsExports).status == Queries.Status(Queries.TryAgain, true)
  {
    Queries.CreateQueryMissing();
  }

  /** With the intended `createQuery`, every inquiry that passes the checks
      is accepted by `POST /api/queries`, which stores the name, email and
      phone as passed and the message trimmed, and the form thanks the
      user. */
  lemma RentalAccepted(f: RentalFields)
    requires SubmitRental(f).Passed?
    ensures var b := SubmitRental(f).body;
            var q := Queries.SubmitQuery(b);
            q.Created? && q.query.name == b.name.value && q.query.email == b.email.value
            && q.query.phone == b.phone && q.query.message == Trim(b.message.value)
    ensures var b := SubmitRental(f).body;
            var r := HandleRental(f, Queries.IntendedExports);
            r.status == Queries.Status(RentalThanks, false) && r.request == Some(b)
            && r.stored == Some(Queries.SubmitQuery(b).query)
  {
    Queries.CreateQueryMissing();
    var b := SubmitRental(f).body;
    TrimIdempotent(f.name.value);
    TrimIdempotent(f.email.value);
    TrimIdempotent(f.phone.value);
    Queries.StoredAsSent(b);
  }
}
