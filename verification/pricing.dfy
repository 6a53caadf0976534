/** The product page's option state and price computation (public/js/product.js):
    the selection map, `calculatePrice`, `handleOptionChange`, the required-radio
    pre-selection, the specification column split and the order payload. */
module Pricing {
  import opened Basics
  import opened Catalog
  import opened Seqs

  /** The value stored under an option name: one caption for a radio option,
      a list of captions for a checkbox option. */
  datatype Selection = Single(caption: string) | Many(captions: seq<string>)

  /** `selectedOptions`, as its entries in key-insertion order. This is the
      order `Object.keys` lists them in when no option name is an integer-like
      text such as "2"; JavaScript lists those first, in numeric order. */
  type Selections = seq<(string, Selection)>

  /** `Object.keys(selectedOptions)`. */
  function Keys(sel: Selections): (ks: seq<string>)
    ensures |ks| == |sel|
  {
    if |sel| == 0 then [] else [sel[0].0] + Keys(sel[1..])
  }

  /** No option name is stored twice, as for a JavaScript object. */
  predicate UniqueKeys(sel: Selections)
  {
    |sel| == 0 || (sel[0].0 !in Keys(sel[1..]) && UniqueKeys(sel[1..]))
  }

  /** `selectedOptions[k]`. */
  function Lookup(sel: Selections, k: string): (r: Option<Selection>)
    ensures r.None? <==> k !in Keys(sel)
  {
    if |sel| == 0 then None
    else if sel[0].0 == k then Some(sel[0].1)
    else Lookup(sel[1..], k)
  }

  /** `selectedOptions[k] = v`: an existing key keeps its position, a new key
      is appended after all others (where JavaScript agrees: for names that
      are not integer-like). */
  function Put(sel: Selections, k: string, v: Selection): (r: Selections)
    ensures Lookup(r, k) == Some(v)
    ensures forall k' :: k' != k ==> Lookup(r, k') == Lookup(sel, k')
  {
    if |sel| == 0 then [(k, v)]
    else if sel[0].0 == k then [(k, v)] + sel[1..]
    else [sel[0]] + Put(sel[1..], k, v)
  }

  /** `Put` reorders no key and keeps keys unique. */
  lemma {:induction false} PutKeys(sel: Selections, k: string, v: Selection)
    ensures Keys(Put(sel, k, v)) == if k in Keys(sel) then Keys(sel) else Keys(sel) + [k]
    ensures UniqueKeys(sel) ==> UniqueKeys(Put(sel, k, v))
    decreases |sel|
  {
    if |sel| > 0 && sel[0].0 != k {
      var t := Put(sel[1..], k, v);
      PutKeys(sel[1..], k, v);
      assert ([sel[0]] + t)[1..] == t;
      assert [sel[0].0] + (Keys(sel[1..]) + [k]) == [sel[0].0] + Keys(sel[1..]) + [k];
    } else if |sel| > 0 {
      assert ([(k, v)] + sel[1..])[1..] == sel[1..];
    }
  }

  /** One line of the price breakdown. */
  datatype Line = Line(caption: string, price: real)

  /** The result of `calculatePrice`. */
  datatype Quote = Quote(total: real, breakdown: seq<Line>)

  const BasePriceCaption: string := "Base Price"

  function SumLines(lines: seq<Line>): real
  {
    if |lines| == 0 then 0.0 else SumLines(lines[..|lines| - 1]) + lines[|lines| - 1].price
  }

  lemma {:induction false} SumLinesAppend(a: seq<Line>, b: seq<Line>)
    ensures SumLines(a + b) == SumLines(a) + SumLines(b)
    decreases |b|
  {
    if |b| > 0 {
      assert (a + b)[..|a + b| - 1] == a + b[..|b| - 1];
      SumLinesAppend(a, b[..|b| - 1]);
    } else {
      assert a + b == a;
    }
  }

  /** Two accumulation steps in a row add the concatenated lines at once. */
  lemma QuoteStep(acc: Quote, head: seq<Line>, tail: seq<Line>, mid: Quote, r: Quote)
    requires mid == Quote(acc.total + SumLines(head), acc.breakdown + head)
    requires r == Quote(mid.total + SumLines(tail), mid.breakdown + tail)
    ensures r == Quote(acc.total + SumLines(head + tail), acc.breakdown + (head + tail))
  {
    SumLinesAppend(head, tail);
    AppendAssoc(acc.breakdown, head, tail);
  }

  /** Adding concatenated lines at once is adding them one part after the other. */
  lemma QuoteSplit(acc: Quote, head: seq<Line>, tail: seq<Line>, r: Quote)
    requires r == Quote(acc.total + SumLines(head + tail), acc.breakdown + (head + tail))
    ensures r == Quote((acc.total + SumLines(head)) + SumLines(tail), (acc.breakdown + head) + tail)
  {
    SumLinesAppend(head, tail);
    AppendAssoc(acc.breakdown, head, tail);
  }

  /** The running total and the lines disagree by a fixed amount that each step
      keeps; the existing lines are never changed. */
  ghost predicate Extends(acc: Quote, r: Quote)
  {
    && acc.breakdown <= r.breakdown
    && r.total - SumLines(r.breakdown) == acc.total - SumLines(acc.breakdown)
  }

  /** The inner step of `calculatePrice` for one caption of option `option`
      stored under `name`: a caption found among the choices adds its price and
      a line "<name>: <caption>"; an unknown caption is skipped. */
  function AddCaption(option: ProductOption, name: string, caption: string, acc: Quote): (r: Quote)
    ensures Extends(acc, r)
    ensures |r.breakdown| <= |acc.breakdown| + 1
  {
    match FindChoice(option.choices, caption)
    case None => acc
    case Some(c) =>
      var line := Line(name + ": " + caption, c.price);
      SumLinesAppend(acc.breakdown, [line]);
      Quote(acc.total + c.price, acc.breakdown + [line])
  }

  /** The checkbox branch: every stored caption in list order. */
  function AddCaptions(option: ProductOption, name: string, captions: seq<string>, acc: Quote): (r: Quote)
    ensures Extends(acc, r)
    decreases |captions|
  {
    if |captions| == 0 then acc
    else AddCaptions(option, name, captions[1..], AddCaption(option, name, captions[0], acc))
  }

  /** One key of `selectedOptions`: a key naming no option of the product is ignored. */
  function AddEntry(options: seq<ProductOption>, entry: (string, Selection), acc: Quote): (r: Quote)
    ensures Extends(acc, r)
  {
    match FindOption(options, entry.0)
    case None => acc
    case Some(o) =>
      match entry.1
      case Single(c) => AddCaption(o, entry.0, c, acc)
      case Many(cs) => AddCaptions(o, entry.0, cs, acc)
  }

  /** The `forEach` over the selection keys, in insertion order. */
  function AddEntries(options: seq<ProductOption>, sel: Selections, acc: Quote): (r: Quote)
    ensures Extends(acc, r)
    decreases |sel|
  {
    if |sel| == 0 then acc
    else AddEntries(options, sel[1..], AddEntry(options, sel[0], acc))
  }

  /** `calculatePrice`: the breakdown opens with the base price and the total
      is always the sum of the breakdown. */
  function CalculatePrice(p: Product, sel: Selections): (q: Quote)
    ensures |q.breakdown| >= 1 && q.breakdown[0] == Line(BasePriceCaption, p.price)
    ensures q.total == SumLines(q.breakdown)
  {
    var start := Quote(p.price, [Line(BasePriceCaption, p.price)]);
    assert SumLines(start.breakdown) == p.price by {
      assert start.breakdown[..0] == [];
    }
    AddEntries(p.options, sel, start)
  }

  // ---------------------------------------------------------------------
  // Reference description of the breakdown, without an accumulator.

  /** The lines contributed by the captions `captions` of option `o`. */
  function CaptionLines(o: ProductOption, name: string, captions: seq<string>): seq<Line>
  {
    if |captions| == 0 then []
    else
      (match FindChoice(o.choices, captions[0])
       case None => []
       case Some(c) => [Line(name + ": " + captions[0], c.price)])
      + CaptionLines(o, name, captions[1..])
  }

  /** The captions stored in a selection value. */
  function Captions(v: Selection): seq<string>
  {
    match v
    case Single(c) => [c]
    case Many(cs) => cs
  }

  /** The lines contributed by one selection entry. */
  function EntryLines(options: seq<ProductOption>, entry: (string, Selection)): seq<Line>
  {
    match FindOption(options, entry.0)
    case None => []
    case Some(o) => CaptionLines(o, entry.0, Captions(entry.1))
  }

  /** Every line a selection contributes, in key order and then list order. */
  function SelectedLines(options: seq<ProductOption>, sel: Selections): seq<Line>
  {
    if |sel| == 0 then [] else EntryLines(options, sel[0]) + SelectedLines(options, sel[1..])
  }

  lemma {:induction false} SelectedLinesAppend(options: seq<ProductOption>, a: Selections, b: Selections)
    ensures SelectedLines(options, a + b) == SelectedLines(options, a) + SelectedLines(options, b)
    decreases |a|
  {
    if |a| > 0 {
      assert (a + b)[0] == a[0] && (a + b)[1..] == a[1..] + b;
      SelectedLinesAppend(options, a[1..], b);
      AppendAssoc(EntryLines(options, a[0]), SelectedLines(options, a[1..]), SelectedLines(options, b));
    } else {
      assert a + b == b;
    }
  }

  /** One caption contributes the lines `CaptionLines` gives for it. */
  lemma AddCaptionSingle(o: ProductOption, name: string, caption: string, acc: Quote)
    ensures var head := CaptionLines(o, name, [caption]);
            AddCaption(o, name, caption, acc) == Quote(acc.total + SumLines(head), acc.breakdown + head)
            && AddCaptions(o, name, [caption], acc) == AddCaption(o, name, caption, acc)
  {
    var head := CaptionLines(o, name, [caption]);
    assert [caption][1..] == [];
    assert CaptionLines(o, name, []) == [];
    match FindChoice(o.choices, caption)
    case None =>
      assert head == [];
      assert acc.breakdown + [] == acc.breakdown;
    case Some(c) =>
      assert head == [Line(name + ": " + caption, c.price)];
      assert head[..0] == [];
  }

  lemma {:induction false} AddCaptionsMeaning(o: ProductOption, name: string, captions: seq<string>, acc: Quote)
    ensures AddCaptions(o, name, captions, acc)
         == Quote(acc.total + SumLines(CaptionLines(o, name, captions)), acc.breakdown + CaptionLines(o, name, captions))
    decreases |captions|
  {
    if |captions| > 0 {
      var mid := AddCaption(o, name, captions[0], acc);
      AddCaptionSingle(o, name, captions[0], acc);
      AddCaptionsMeaning(o, name, captions[1..], mid);
      CaptionLinesCons(o, name, captions);
      QuoteStep(acc, CaptionLines(o, name, [captions[0]]), CaptionLines(o, name, captions[1..]), mid,
                AddCaptions(o, name, captions, acc));
    } else {
      assert acc.breakdown + [] == acc.breakdown;
    }
  }

  lemma CaptionLinesCons(o: ProductOption, name: string, captions: seq<string>)
    requires |captions| > 0
    ensures CaptionLines(o, name, captions) == CaptionLines(o, name, [captions[0]]) + CaptionLines(o, name, captions[1..])
  {
    assert [captions[0]][1..] == [];
    var head := CaptionLines(o, name, [captions[0]]);
    assert head == head + CaptionLines(o, name, []);
  }

  lemma AddEntryMeaning(options: seq<ProductOption>, e: (string, Selection), acc: Quote)
    ensures var head := EntryLines(options, e);
            AddEntry(options, e, acc) == Quote(acc.total + SumLines(head), acc.breakdown + head)
  {
    match FindOption(options, e.0)
    case None =>
      assert SumLines([]) == 0.0;
      assert acc.breakdown + [] == acc.breakdown;
    case Some(o) =>
      AddCaptionsMeaning(o, e.0, Captions(e.1), acc);
      if e.1.Single? {
        AddCaptionSingle(o, e.0, e.1.caption, acc);
      }
  }

  lemma {:induction false} AddEntriesMeaning(options: seq<ProductOption>, sel: Selections, acc: Quote)
    ensures AddEntries(options, sel, acc)
         == Quote(acc.total + SumLines(SelectedLines(options, sel)), acc.breakdown + SelectedLines(options, sel))
    decreases |sel|
  {
    if |sel| > 0 {
      var mid := AddEntry(options, sel[0], acc);
      AddEntryMeaning(options, sel[0], acc);
      AddEntriesMeaning(options, sel[1..], mid);
      QuoteStep(acc, EntryLines(options, sel[0]), SelectedLines(options, sel[1..]), mid,
                AddEntries(options, sel, acc));
    } else {
      assert acc.breakdown + [] == acc.breakdown;
    }
  }

  /** `calculatePrice` agrees with the reference description: the base line
      followed by every matched caption's line, the total their sum. */
  lemma CalculatePriceMeaning(p: Product, sel: Selections)
    ensures CalculatePrice(p, sel).breakdown == [Line(BasePriceCaption, p.price)] + SelectedLines(p.options, sel)
    ensures CalculatePrice(p, sel).total == p.price + SumLines(SelectedLines(p.options, sel))
    ensures |CalculatePrice(p, sel).breakdown| == 1 + |SelectedLines(p.options, sel)|
  {
    AddEntriesMeaning(p.options, sel, Quote(p.price, [Line(BasePriceCaption, p.price)]));
  }

  /** A selection key that names no option of the product contributes nothing,
      wherever it stands among the keys. */
  lemma UnknownOptionIgnored(p: Product, before: Selections, name: string, v: Selection, after: Selections)
    requires FindOption(p.options, name).None?
    ensures CalculatePrice(p, before + [(name, v)] + after) == CalculatePrice(p, before + after)
  {
    CalculatePriceMeaning(p, before + [(name, v)] + after);
    CalculatePriceMeaning(p, before + after);
    SelectedLinesAppend(p.options, before + [(name, v)], after);
    SelectedLinesAppend(p.options, before, [(name, v)]);
    SelectedLinesAppend(p.options, before, after);
    assert SelectedLines(p.options, [(name, v)]) == [] by {
      assert [(name, v)][1..] == [];
    }
    assert SelectedLines(p.options, before) + [] == SelectedLines(p.options, before);
  }

  /** The lines of a single-caption entry: one line when both the option and
      the caption are found, none otherwise. */
  lemma EntryLinesSingle(options: seq<ProductOption>, name: string, caption: string)
    ensures var o := FindOption(options, name);
            EntryLines(options, (name, Single(caption)))
            == if o.Some? && FindChoice(o.value.choices, caption).Some?
               then [Line(name + ": " + caption, FindChoice(o.value.choices, caption).value.price)]
               else []
  {
    assert [caption][1..] == [];
    match FindOption(options, name)
    case None =>
    case Some(o) =>
      assert CaptionLines(o, name, []) == [];
      var head := match FindChoice(o.choices, caption)
                  case None => []
                  case Some(c) => [Line(name + ": " + caption, c.price)];
      assert CaptionLines(o, name, [caption]) == head + [];
      assert head + [] == head;
  }

  /** A selection entry added after all others appends its own lines and
      adds their sum to the total; the earlier lines are untouched. */
  lemma AppendEntry(p: Product, sel: Selections, e: (string, Selection))
    ensures var q := CalculatePrice(p, sel);
            var extra := EntryLines(p.options, e);
            CalculatePrice(p, sel + [e]) == Quote(q.total + SumLines(extra), q.breakdown + extra)
  {
    var start := Quote(p.price, [Line(BasePriceCaption, p.price)]);
    AddEntriesMeaning(p.options, sel, start);
    AddEntriesMeaning(p.options, sel + [e], start);
    SelectedLinesAppend(p.options, sel, [e]);
    var extra := EntryLines(p.options, e);
    assert SelectedLines(p.options, [e]) == extra by {
      assert [e][1..] == [];
      assert extra + [] == extra;
    }
    QuoteSplit(start, SelectedLines(p.options, sel), extra, CalculatePrice(p, sel + [e]));
  }

  /** Selecting one more caption under a new last key: a caption found among
      the choices of the named option adds exactly one line, carrying that
      choice's price; otherwise nothing changes. */
  lemma SelectOneMore(p: Product, sel: Selections, name: string, caption: string)
    ensures var q := CalculatePrice(p, sel);
            var q' := CalculatePrice(p, sel + [(name, Single(caption))]);
            var o := FindOption(p.options, name);
            if o.Some? && FindChoice(o.value.choices, caption).Some? then
              var c := FindChoice(o.value.choices, caption).value;
              q' == Quote(q.total + c.price, q.breakdown + [Line(name + ": " + caption, c.price)])
            else q' == q
  {
    AppendEntry(p, sel, (name, Single(caption)));
    EntryLinesSingle(p.options, name, caption);
    var extra := EntryLines(p.options, (name, Single(caption)));
    var q := CalculatePrice(p, sel);
    if |extra| == 1 {
      assert extra[..0] == [];
    } else {
      assert q.breakdown + extra == q.breakdown;
    }
  }

  // ---------------------------------------------------------------------
  // `handleOptionChange`

  /** `list.filter(c => c !== caption)`. */
  function RemoveAll(list: seq<string>, caption: string): (r: seq<string>)
    ensures caption !in r
    ensures multiset(r) == multiset(list)[caption := 0]
    ensures |r| <= |list|
  {
    if |list| == 0 then []
    else if list[0] == caption then
      assert list == [list[0]] + list[1..];
      RemoveAll(list[1..], caption)
    else
      assert list == [list[0]] + list[1..];
      [list[0]] + RemoveAll(list[1..], caption)
  }

  /** `handleOptionChange(name, caption, checked)`. A radio option's entry
      becomes exactly `caption`; a checkbox option's list gains `caption` at
      the end when checked and loses every copy of it when unchecked; an
      unknown option name, an option of another type, or a checkbox entry
      holding a non-empty single caption (where `push`/`filter` on a string
      throws) leave the selection as it was. */
  function HandleOptionChange(options: seq<ProductOption>, sel: Selections, name: string, caption: string, checked: bool): (r: Selections)
    ensures forall k :: k != name ==> Lookup(r, k) == Lookup(sel, k)
    ensures UniqueKeys(sel) ==> UniqueKeys(r)
    ensures FindOption(options, name).None? ==> r == sel
    ensures FindOption(options, name).Some? && FindOption(options, name).value.kind == Radio
            ==> Lookup(r, name) == Some(Single(caption))
  {
    match FindOption(options, name)
    case None => sel
    case Some(o) =>
      match o.kind
      case Radio =>
        PutKeys(sel, name, Single(caption));
        Put(sel, name, Single(caption))
      case Checkbox =>
        var current := Lookup(sel, name);
        if current.Some? && current.value.Single? && current.value.caption != "" then sel
        else
          var list := if current.Some? && current.value.Many? then current.value.captions else [];
          var v := Many(if checked then list + [caption] else RemoveAll(list, caption));
          PutKeys(sel, name, v);
          Put(sel, name, Many(if checked then list + [caption] else RemoveAll(list, caption)))
      case OtherKind(_) => sel
  }

  /** The captions a checkbox entry currently lists (an absent entry or an
      empty-string entry counts as the empty list). */
  function CheckedList(sel: Selections, name: string): seq<string>
  {
    var current := Lookup(sel, name);
    if current.Some? && current.value.Many? then current.value.captions else []
  }

  /** Checking a checkbox choice appends its caption; unchecking removes every
      copy of it and keeps every other caption with its multiplicity. */
  lemma CheckboxToggle(options: seq<ProductOption>, sel: Selections, name: string, caption: string, checked: bool)
    requires FindOption(options, name).Some? && FindOption(options, name).value.kind == Checkbox
    requires Lookup(sel, name).None? || Lookup(sel, name).value.Many? || Lookup(sel, name) == Some(Single(""))
    ensures var r := HandleOptionChange(options, sel, name, caption, checked);
            var before := CheckedList(sel, name);
            Lookup(r, name).Some? && Lookup(r, name).value.Many?
            && (checked ==> Lookup(r, name).value.captions == before + [caption])
            && (!checked ==> caption !in Lookup(r, name).value.captions
                             && (forall x :: x != caption ==> multiset(Lookup(r, name).value.captions)[x] == multiset(before)[x]))
  {
  }

  // ---------------------------------------------------------------------
  // Pre-selection of required radio options (`renderProduct`)

  predicate IsRequiredRadio(o: ProductOption)
  {
    o.required && |o.choices| > 0 && o.kind == Radio
  }

  /** The names of the required radio options, in declaration order. */
  function RequiredRadioNames(options: seq<ProductOption>): seq<string>
  {
    if |options| == 0 then []
    else (if IsRequiredRadio(options[0]) then [options[0].name] else []) + RequiredRadioNames(options[1..])
  }

  /** One step of the pre-selection loop. */
  function PreselectOne(o: ProductOption, sel: Selections): (r: Selections)
    ensures UniqueKeys(sel) ==> UniqueKeys(r)
  {
    if IsRequiredRadio(o) then
      PutKeys(sel, o.name, Single(o.choices[0].caption));
      Put(sel, o.name, Single(o.choices[0].caption))
    else sel
  }

  /** The pre-selection loop over all options in declaration order: only keys
      of required radio options are written. */
  function Preselect(options: seq<ProductOption>, sel: Selections): (r: Selections)
    ensures UniqueKeys(sel) ==> UniqueKeys(r)
    decreases |options|
  {
    if |options| == 0 then sel
    else Preselect(options[1..], PreselectOne(options[0], sel))
  }

  /** Keys that name no required radio option keep their value. */
  lemma {:induction false} PreselectLeavesOthers(options: seq<ProductOption>, sel: Selections, k: string)
    requires k !in RequiredRadioNames(options)
    ensures Lookup(Preselect(options, sel), k) == Lookup(sel, k)
    decreases |options|
  {
    if |options| > 0 {
      var o := options[0];
      assert RequiredRadioNames(options)
          == (if IsRequiredRadio(o) then [o.name] else []) + RequiredRadioNames(options[1..]);
      PreselectLeavesOthers(options[1..], PreselectOne(o, sel), k);
    }
  }

  /** Option names are unique within the product. */
  predicate UniqueOptionNames(options: seq<ProductOption>)
  {
    forall i, j :: 0 <= i < j < |options| ==> options[i].name != options[j].name
  }

  /** After pre-selection every required radio option with choices holds its
      first choice's caption. */
  lemma {:induction false} PreselectRequired(options: seq<ProductOption>, sel: Selections, i: int)
    requires UniqueOptionNames(options)
    requires 0 <= i < |options| && IsRequiredRadio(options[i])
    ensures Lookup(Preselect(options, sel), options[i].name) == Some(Single(options[i].choices[0].caption))
    decreases |options|
  {
    var mid := PreselectOne(options[0], sel);
    if i == 0 {
      var rest := options[1..];
      if options[0].name in RequiredRadioNames(rest) {
        var j := RequiredRadioNamesFrom(rest, options[0].name);
      } else {
        PreselectLeavesOthers(rest, mid, options[0].name);
      }
    } else {
      assert options[1..][i - 1] == options[i];
      PreselectRequired(options[1..], mid, i - 1);
    }
  }

  /** Every required radio name is the name of some option. */
  lemma {:induction false} RequiredRadioNamesFrom(options: seq<ProductOption>, k: string) returns (j: int)
    requires k in RequiredRadioNames(options)
    ensures 0 <= j < |options| && options[j].name == k
    decreases |options|
  {
    if options[0].name == k {
      j := 0;
    } else {
      var j' := RequiredRadioNamesFrom(options[1..], k);
      j := j' + 1;
    }
  }

  /** The names carried by a list of options. */
  function OptionNames(options: seq<ProductOption>): seq<string>
  {
    if |options| == 0 then [] else [options[0].name] + OptionNames(options[1..])
  }

  lemma PreselectOneKeys(o: ProductOption, sel: Selections)
    requires o.name !in Keys(sel)
    ensures Keys(PreselectOne(o, sel)) == Keys(sel) + (if IsRequiredRadio(o) then [o.name] else [])
  {
    if IsRequiredRadio(o) {
      PutKeys(sel, o.name, Single(o.choices[0].caption));
    } else {
      assert Keys(sel) + [] == Keys(sel);
    }
  }

  lemma UniqueOptionNamesTail(options: seq<ProductOption>)
    requires |options| > 0 && UniqueOptionNames(options)
    ensures UniqueOptionNames(options[1..])
  {
    var rest := options[1..];
    forall i, j | 0 <= i < j < |rest| ensures rest[i].name != rest[j].name {
      assert rest[i] == options[i + 1] && rest[j] == options[j + 1];
    }
  }

  /** After the first pre-selection step, no later option's name is a key yet. */
  lemma FreshNamesStep(options: seq<ProductOption>, sel: Selections)
    requires |options| > 0 && UniqueOptionNames(options)
    requires forall n :: n in OptionNames(options) ==> n !in Keys(sel)
    ensures forall n :: n in OptionNames(options[1..]) ==> n !in Keys(PreselectOne(options[0], sel))
  {
    var rest := options[1..];
    PreselectOneKeys(options[0], sel);
    forall n | n in OptionNames(rest) ensures n !in Keys(PreselectOne(options[0], sel)) {
      var j := OptionNamesFrom(rest, n);
      assert rest[j] == options[j + 1];
    }
  }

  lemma PreselectKeysStep(options: seq<ProductOption>, sel: Selections)
    requires |options| > 0 && options[0].name !in Keys(sel)
    requires Keys(Preselect(options[1..], PreselectOne(options[0], sel)))
          == Keys(PreselectOne(options[0], sel)) + RequiredRadioNames(options[1..])
    ensures Keys(Preselect(options, sel)) == Keys(sel) + RequiredRadioNames(options)
  {
    var o := options[0];
    var added := if IsRequiredRadio(o) then [o.name] else [];
    PreselectOneKeys(o, sel);
    assert Preselect(options, sel) == Preselect(options[1..], PreselectOne(o, sel));
    AppendAssoc(Keys(sel), added, RequiredRadioNames(options[1..]));
  }

  /** Starting from keys none of which names an option, pre-selection appends
      the required radio names in declaration order and reorders nothing. */
  lemma {:induction false} PreselectKeys(options: seq<ProductOption>, sel: Selections)
    requires UniqueOptionNames(options)
    requires forall n :: n in OptionNames(options) ==> n !in Keys(sel)
    ensures Keys(Preselect(options, sel)) == Keys(sel) + RequiredRadioNames(options)
    decreases |options|
  {
    if |options| > 0 {
      UniqueOptionNamesTail(options);
      FreshNamesStep(options, sel);
      PreselectKeys(options[1..], PreselectOne(options[0], sel));
      PreselectKeysStep(options, sel);
    } else {
      assert Keys(sel) + [] == Keys(sel);
    }
  }

  lemma {:induction false} OptionNamesFrom(options: seq<ProductOption>, n: string) returns (j: int)
    requires n in OptionNames(options)
    ensures 0 <= j < |options| && options[j].name == n
    decreases |options|
  {
    if options[0].name == n {
      j := 0;
    } else {
      var j' := OptionNamesFrom(options[1..], n);
      j := j' + 1;
    }
  }

  /** The selection right after the page renders: `selectedOptions` starts as
      `{}` and the required radios are pre-selected. */
  function InitialSelection(p: Product): Selections
  {
    if |p.options| > 0 then Preselect(p.options, []) else []
  }

  /** With unique option names the initial selection holds exactly the
      required radio options, each on its first choice, in declaration order. */
  lemma InitialSelectionShape(p: Product)
    requires UniqueOptionNames(p.options)
    ensures Keys(InitialSelection(p)) == RequiredRadioNames(p.options)
    ensures UniqueKeys(InitialSelection(p))
    ensures forall i :: 0 <= i < |p.options| && IsRequiredRadio(p.options[i])
              ==> Lookup(InitialSelection(p), p.options[i].name) == Some(Single(p.options[i].choices[0].caption))
  {
    if |p.options| > 0 {
      PreselectKeys(p.options, []);
      assert Keys([]) + RequiredRadioNames(p.options) == RequiredRadioNames(p.options);
      forall i | 0 <= i < |p.options| && IsRequiredRadio(p.options[i])
        ensures Lookup(InitialSelection(p), p.options[i].name) == Some(Single(p.options[i].choices[0].caption))
      {
        PreselectRequired(p.options, [], i);
      }
    }
  }

  /** Pre-selection only adds keys: a key already present stays present. */
  lemma {:induction false} PreselectKeepsKey(options: seq<ProductOption>, sel: Selections, k: string)
    requires k in Keys(sel)
    ensures k in Keys(Preselect(options, sel))
    decreases |options|
  {
    if |options| > 0 {
      var o := options[0];
      if IsRequiredRadio(o) {
        PutKeys(sel, o.name, Single(o.choices[0].caption));
      }
      PreselectKeepsKey(options[1..], PreselectOne(o, sel), k);
    }
  }

  /** Every required radio name is a key after pre-selection. */
  lemma {:induction false} PreselectHasKey(options: seq<ProductOption>, sel: Selections, k: string)
    requires k in RequiredRadioNames(options)
    ensures k in Keys(Preselect(options, sel))
    decreases |options|
  {
    var o := options[0];
    if k in RequiredRadioNames(options[1..]) {
      PreselectHasKey(options[1..], PreselectOne(o, sel), k);
    } else {
      assert IsRequiredRadio(o) && o.name == k;
      PutKeys(sel, o.name, Single(o.choices[0].caption));
      PreselectKeepsKey(options[1..], PreselectOne(o, sel), k);
    }
  }

  /** When every required radio name is already a key, pre-selection keeps
      the key list as it is. */
  lemma {:induction false} PreselectSameKeys(options: seq<ProductOption>, sel: Selections)
    requires forall k :: k in RequiredRadioNames(options) ==> k in Keys(sel)
    ensures Keys(Preselect(options, sel)) == Keys(sel)
    decreases |options|
  {
    if |options| > 0 {
      var o := options[0];
      var mid := PreselectOne(o, sel);
      assert RequiredRadioNames(options)
          == (if IsRequiredRadio(o) then [o.name] else []) + RequiredRadioNames(options[1..]);
      if IsRequiredRadio(o) {
        PutKeys(sel, o.name, Single(o.choices[0].caption));
      }
      PreselectSameKeys(options[1..], mid);
    }
  }

  /** The value pre-selection leaves under a required radio name does not
      depend on the selection it starts from. */
  lemma {:induction false} PreselectValueFixed(options: seq<ProductOption>, a: Selections, b: Selections, k: string)
    requires k in RequiredRadioNames(options)
    ensures Lookup(Preselect(options, a), k) == Lookup(Preselect(options, b), k)
    decreases |options|
  {
    var o := options[0];
    if k in RequiredRadioNames(options[1..]) {
      PreselectValueFixed(options[1..], PreselectOne(o, a), PreselectOne(o, b), k);
    } else {
      assert IsRequiredRadio(o) && o.name == k;
      PreselectLeavesOthers(options[1..], PreselectOne(o, a), k);
      PreselectLeavesOthers(options[1..], PreselectOne(o, b), k);
    }
  }

  /** Two selections with unique keys, the same key list and the same value
      under every key are the same selection. */
  lemma {:induction false} SelectionsEqual(a: Selections, b: Selections)
    requires UniqueKeys(a) && Keys(a) == Keys(b)
    requires forall k :: Lookup(a, k) == Lookup(b, k)
    ensures a == b
    decreases |a|
  {
    if |a| > 0 {
      var k := a[0].0;
      assert |b| == |Keys(b)| == |a|;
      assert Keys(a) == [k] + Keys(a[1..]) && Keys(b) == [b[0].0] + Keys(b[1..]);
      assert ([k] + Keys(a[1..]))[0] == k && ([k] + Keys(a[1..]))[1..] == Keys(a[1..]);
      assert ([b[0].0] + Keys(b[1..]))[0] == b[0].0 && ([b[0].0] + Keys(b[1..]))[1..] == Keys(b[1..]);
      assert b[0].0 == k && Keys(a[1..]) == Keys(b[1..]);
      assert Lookup(a, k) == Some(a[0].1) && Lookup(b, k) == Some(b[0].1);
      forall k' ensures Lookup(a[1..], k') == Lookup(b[1..], k') {
        if k' == k {
          assert k !in Keys(a[1..]);
        } else {
          assert Lookup(a, k') == Lookup(a[1..], k') && Lookup(b, k') == Lookup(b[1..], k');
        }
      }
      SelectionsEqual(a[1..], b[1..]);
      assert a == [a[0]] + a[1..] && b == [b[0]] + b[1..];
    }
  }

  /** Pre-selecting again changes nothing: the re-initialisation that runs
      after the page is rendered leaves the selection as the first pass left
      it. */
  lemma PreselectIdempotent(options: seq<ProductOption>, sel: Selections)
    requires UniqueKeys(sel)
    ensures Preselect(options, Preselect(options, sel)) == Preselect(options, sel)
  {
    var once := Preselect(options, sel);
    var twice := Preselect(options, once);
    forall k | k in RequiredRadioNames(options) ensures k in Keys(once) {
      PreselectHasKey(options, sel, k);
    }
    PreselectSameKeys(options, once);
    forall k ensures Lookup(twice, k) == Lookup(once, k) {
      if k in RequiredRadioNames(options) {
        PreselectValueFixed(options, once, sel, k);
      } else {
        PreselectLeavesOthers(options, once, k);
      }
    }
    SelectionsEqual(twice, once);
  }

  // ---------------------------------------------------------------------
  // The price shown on first render

  /** The price block of the page: the total shown, and the lines of the
      `#priceBreakdown` element, which only a product with options has
      (`None` for the static block of a product without options). */
  datatype PriceBlock = PriceBlock(total: real, breakdown: Option<seq<Line>>)

  /** The block `renderProduct` writes into its markup: the total computed
      from the empty selection, before the required radios are pre-selected,
      and the breakdown computed after. */
  function RenderedPriceBlock(p: Product): (b: PriceBlock)
    ensures b.total == p.price
    ensures b.breakdown.Some? <==> |p.options| > 0
  {
    var before := CalculatePrice(p, []);
    assert SelectedLines(p.options, []) == [];
    CalculatePriceMeaning(p, []);
    PriceBlock(before.total, if |p.options| > 0 then Some(CalculatePrice(p, InitialSelection(p)).breakdown) else None)
  }

  /** `updatePrice`: the total, and the breakdown where the page has a
      `#priceBreakdown` element, rewritten from the current selection. */
  function UpdatePrice(b: PriceBlock, p: Product, sel: Selections): (r: PriceBlock)
    ensures r.total == p.price + SumLines(SelectedLines(p.options, sel))
    ensures r.breakdown.Some? <==> b.breakdown.Some?
    ensures r.breakdown.Some? ==> r.breakdown.value == [Line(BasePriceCaption, p.price)] + SelectedLines(p.options, sel)
  {
    var q := CalculatePrice(p, sel);
    CalculatePriceMeaning(p, sel);
    PriceBlock(q.total, if b.breakdown.Some? then Some(q.breakdown) else None)
  }

  /** What `updatePrice` writes depends only on the selection and on which
      elements the page has, never on the totals already shown. */
  lemma UpdatePriceOverwrites(b1: PriceBlock, b2: PriceBlock, p: Product, sel: Selections)
    requires b1.breakdown.Some? == b2.breakdown.Some?
    ensures UpdatePrice(b1, p, sel) == UpdatePrice(b2, p, sel)
  {
  }

  /** The page's start: `renderProduct()` and then, in the same task,
      `updatePrice()`. */
  function FirstRender(p: Product): PriceBlock
  {
    UpdatePrice(RenderedPriceBlock(p), p, InitialSelection(p))
  }

  /** The first price block shown: the base price plus the pre-selected
      radios' prices, and for a product with options a breakdown of the base
      line and the pre-selected lines whose sum is that total. The base-only
      total of the markup never reaches the screen. */
  lemma FirstRenderShown(p: Product)
    ensures FirstRender(p).total == p.price + SumLines(SelectedLines(p.options, InitialSelection(p)))
    ensures FirstRender(p).breakdown.Some? <==> |p.options| > 0
    ensures FirstRender(p).breakdown.Some? ==>
              FirstRender(p).breakdown.value == [Line(BasePriceCaption, p.price)] + SelectedLines(p.options, InitialSelection(p))
              && FirstRender(p).total == SumLines(FirstRender(p).breakdown.value)
  {
    var sel := InitialSelection(p);
    if |p.options| > 0 {
      CalculatePriceMeaning(p, sel);
      assert FirstRender(p).breakdown.value == CalculatePrice(p, sel).breakdown;
    }
  }

  // ---------------------------------------------------------------------
  // Specifications table layout

  datatype SpecsLayout =
    | OneColumn(rows: seq<(string, string)>)
    | TwoColumns(left: seq<(string, string)>, right: seq<(string, string)>)

  /** `specsColumns || 1`, then the two-column split at `Math.ceil(n / 2)`. */
  function LayoutSpecs(p: Product): (l: SpecsLayout)
    ensures l.TwoColumns? <==> p.specsColumns == 2
    ensures l.OneColumn? ==> l.rows == p.specs
    ensures l.TwoColumns? ==> l.left + l.right == p.specs
    ensures l.TwoColumns? ==> |l.right| <= |l.left| <= |l.right| + 1
  {
    var columns := if p.specsColumns == 0 then 1 else p.specsColumns;
    if columns == 2 then
      var mid := (|p.specs| + 1) / 2;
      assert p.specs[..mid] + p.specs[mid..] == p.specs;
      TwoColumns(p.specs[..mid], p.specs[mid..])
    else OneColumn(p.specs)
  }

  // ---------------------------------------------------------------------
  // The order payload

  datatype Customer = Customer(fullName: string, email: string, phone: string, city: string)

  /** `orderData` as posted to `/api/orders`. */
  datatype OrderDraft = OrderDraft(
    productId: nat,
    productName: string,
    productBrand: string,
    productPrice: real,
    selectedOptions: Selections,
    priceBreakdown: seq<Line>,
    totalExclVAT: real,
    totalInclVAT: real,
    customerInfo: Customer,
    productImages: seq<string>,
    productDescription: string,
    productSpecs: seq<(string, string)>,
    productStandardEquipment: seq<Equipment>)

  /** The fixed VAT factor, 1.19. */
  const VatFactor: real := 119.0 / 100.0

  /** The order submit handler's payload. */
  function OrderPayload(p: Product, sel: Selections, customer: Customer): (d: OrderDraft)
    ensures d.totalExclVAT == SumLines(d.priceBreakdown) == p.price + SumLines(SelectedLines(p.options, sel))
    ensures d.priceBreakdown == [Line(BasePriceCaption, p.price)] + SelectedLines(p.options, sel)
    ensures 100.0 * d.totalInclVAT == 119.0 * d.totalExclVAT
    ensures d.productBrand != "" && (p.category != "" ==> d.productBrand == p.category)
    ensures p.category == "" ==> d.productBrand == "Unknown"
    ensures d.selectedOptions == sel && d.productPrice == p.price && d.productId == p.id
    ensures d.productName == p.name && d.customerInfo == customer && d.productImages == p.images
            && d.productDescription == p.description && d.productSpecs == p.specs
            && d.productStandardEquipment == p.standardEquipment
  {
    var q := CalculatePrice(p, sel);
    CalculatePriceMeaning(p, sel);
    OrderDraft(p.id, p.name, if p.category == "" then "Unknown" else p.category, p.price, sel,
               q.breakdown, q.total, q.total * VatFactor, customer, p.images, p.description,
               p.specs, p.standardEquipment)
  }

  /** A radio option with a surcharge, selected: 1000 + 50 = 1050, 1249.50 with VAT. */
  lemma RadioScenario(customer: Customer)
    ensures var color := ProductOption("Color", Radio, false, [Choice("Red", 0.0), Choice("Blue", 50.0)]);
            var p := Product(7, "Rib", "", 1000.0, 1, "", [], [], [], [color], 1, 1);
            var d := OrderPayload(p, [("Color", Single("Blue"))], customer);
            d.totalExclVAT == 1050.0 && d.totalInclVAT == 1249.5 && |d.priceBreakdown| == 2
            && d.productBrand == "Unknown"
  {
    var color := ProductOption("Color", Radio, false, [Choice("Red", 0.0), Choice("Blue", 50.0)]);
    var p := Product(7, "Rib", "", 1000.0, 1, "", [], [], [], [color], 1, 1);
    assert [("Color", Single("Blue"))] == [] + [("Color", Single("Blue"))];
    SelectOneMore(p, [], "Color", "Blue");
    CalculatePriceMeaning(p, []);
  }
}
