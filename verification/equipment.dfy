/** The standard-equipment text of the admin product form (public/js/admin.js):
    the serialiser that fills the textarea and the parser the submit handler
    applies to it. Groups are written as a header line ending in ':' followed
    by one "- item" line per item; entries are separated by a blank line. */
module EquipmentText {
  import opened Basics
  import opened Text
  import opened Catalog
  import opened Seqs

  // ---------------------------------------------------------------------
  // Serialiser

  /** `'- ' + item` for every item. */
  function Bullets(items: seq<string>): (r: seq<string>)
    ensures |r| == |items|
  {
    if |items| == 0 then [] else ["- " + items[0]] + Bullets(items[1..])
  }

  /** One entry: a plain string as is; a group with a truthy header as its
      header line and bullet lines; anything else through `JSON.stringify`,
      which is a parameter here. */
  function SerializeEntry(e: Equipment, stringify: Equipment -> string): string
  {
    match e
    case Plain(t) => t
    case Group(h, items) => if h != "" then h + ":\n" + Join(Bullets(items), "\n") else stringify(e)
  }

  function SerializeEntries(es: seq<Equipment>, stringify: Equipment -> string): (r: seq<string>)
    ensures |r| == |es|
    ensures forall k :: 0 <= k < |es| ==> r[k] == SerializeEntry(es[k], stringify)
  {
    if |es| == 0 then [] else [SerializeEntry(es[0], stringify)] + SerializeEntries(es[1..], stringify)
  }

  /** The textarea content for a product's standard equipment. */
  function SerializeEquipment(es: seq<Equipment>, stringify: Equipment -> string): string
  {
    Join(SerializeEntries(es, stringify), "\n\n")
  }

  // ---------------------------------------------------------------------
  // Parser

  /** `s.replace(':', '')`: only the first colon goes. */
  function RemoveFirstColon(s: string): (r: string)
    ensures ':' !in s ==> r == s
    ensures ':' in s ==> |r| == |s| - 1
  {
    if |s| == 0 then s
    else if s[0] == ':' then s[1..]
    else [s[0]] + RemoveFirstColon(s[1..])
  }

  /** `line.replace(/^-\s*\/, '')`: one leading dash and the white space after it. */
  function StripBullet(s: string): (r: string)
    ensures |s| == 0 || s[0] != '-' ==> r == s
  {
    if |s| > 0 && s[0] == '-' then TrimStart(s[1..]) else s
  }

  /** One item line, cleaned: nothing when it is blank after cleaning. */
  function CleanedLine(line: string): (r: seq<string>)
    ensures |r| <= 1 && (|r| == 1 ==> r[0] != "" && IsTrimmed(r[0]))
  {
    var c := Trim(StripBullet(line));
    if c != "" then [c] else []
  }

  /** The item lines, cleaned and with empty ones dropped. */
  function CleanItems(lines: seq<string>): seq<string>
  {
    FlatMap(CleanedLine, lines)
  }

  /** Non-empty trimmed texts, as the parser leaves its items. */
  predicate AllClean(xs: seq<string>)
  {
    forall k :: 0 <= k < |xs| ==> xs[k] != "" && IsTrimmed(xs[k])
  }

  lemma CleanItemsClean(lines: seq<string>)
    ensures AllClean(CleanItems(lines))
  {
    forall l: string, k | 0 <= k < |CleanedLine(l)| ensures CleanedLine(l)[k] != "" && IsTrimmed(CleanedLine(l)[k]) {
      CleanedLineClean(l, k);
    }
    FlatMapAll(CleanedLine, lines, IsCleanItem);
  }

  predicate IsCleanItem(x: string)
  {
    x != "" && IsTrimmed(x)
  }

  lemma CleanedLineClean(l: string, k: int)
    requires 0 <= k < |CleanedLine(l)|
    ensures CleanedLine(l)[k] != "" && IsTrimmed(CleanedLine(l)[k])
  {
  }

  /** What the parser can produce: a group with a trimmed non-empty header
      and trimmed non-empty items, or a trimmed plain string. */
  predicate WellParsed(e: Equipment)
  {
    match e
    case Group(h, items) =>
      h != "" && IsTrimmed(h) && |items| > 0 && AllClean(items)
    case Plain(t) => IsTrimmed(t)
  }

  /** One blank-line-separated paragraph: a group when the first line, less its
      first colon, is non-blank and some item line is non-blank; otherwise the
      first line with a leading dash removed; nothing when the first line is blank. */
  function ParseParagraph(p: string): (r: Option<Equipment>)
    ensures r.Some? ==> WellParsed(r.value)
    ensures r.None? <==> Trim(Split(p, "\n")[0]) == ""
  {
    var lines := Split(p, "\n");
    BlankHasNoColon(lines[0]);
    CleanItemsClean(lines[1..]);
    var header := Trim(RemoveFirstColon(lines[0]));
    var items := CleanItems(lines[1..]);
    if header != "" && |items| > 0 then Some(Group(header, items))
    else if Trim(lines[0]) != "" then Some(Plain(Trim(StripBullet(lines[0]))))
    else None
  }

  lemma BlankHasNoColon(s: string)
    ensures Trim(s) == "" ==> ':' !in s
  {
    TrimBlank(s);
  }

  /** The entries of the paragraphs, in order. */
  function ParseParagraphs(ps: seq<string>): seq<Equipment>
  {
    FlatMap(ParagraphEntries, ps)
  }

  /** The entry a paragraph contributes, if any. */
  function ParagraphEntries(p: string): (r: seq<Equipment>)
    ensures |r| <= 1
    ensures |r| == 1 ==> WellParsed(r[0])
  {
    match ParseParagraph(p)
    case Some(e) => [e]
    case None => []
  }

  lemma ParagraphsWellParsed(ps: seq<string>)
    ensures forall k :: 0 <= k < |ParseParagraphs(ps)| ==> WellParsed(ParseParagraphs(ps)[k])
  {
    forall p: string, k | 0 <= k < |ParagraphEntries(p)| ensures WellParsed(ParagraphEntries(p)[k]) {
      EntryWellParsed(p, k);
    }
    FlatMapAll(ParagraphEntries, ps, WellParsed);
  }

  lemma EntryWellParsed(p: string, k: int)
    requires 0 <= k < |ParagraphEntries(p)|
    ensures WellParsed(ParagraphEntries(p)[k])
  {
  }

  /** The submit handler's parse of the trimmed textarea. */
  function ParseEquipment(text: string): (r: seq<Equipment>)
    ensures Trim(text) == "" ==> r == []
    ensures forall k :: 0 <= k < |r| ==> WellParsed(r[k])
  {
    var t := Trim(text);
    if t == "" then []
    else
      ParagraphsWellParsed(Split(t, "\n\n"));
      ParseParagraphs(Split(t, "\n\n"))
  }

  // ---------------------------------------------------------------------
  // Round trip

  /** A text without line breaks, non-empty and trimmed. */
  predicate CleanLine(s: string)
  {
    s != "" && IsTrimmed(s) && '\n' !in s
  }

  /** The entries the text format carries without loss: plain strings that
      do not start with a dash, and groups with a colon-free header and at
      least one item. */
  predicate RoundTrips(e: Equipment)
  {
    match e
    case Plain(t) => CleanLine(t) && t[0] != '-'
    case Group(h, items) =>
      CleanLine(h) && ':' !in h && |items| > 0 && forall k :: 0 <= k < |items| ==> CleanLine(items[k])
  }

  lemma {:induction false} RemoveFirstColonAppended(h: string)
    requires ':' !in h
    ensures RemoveFirstColon(h + ":") == h
    decreases |h|
  {
    var t := h + ":";
    if |h| > 0 {
      assert t[0] == h[0] && h[0] != ':';
      assert t[1..] == h[1..] + ":";
      assert ':' !in h[1..];
      RemoveFirstColonAppended(h[1..]);
      assert h == [h[0]] + h[1..];
    } else {
      assert t == ":";
    }
  }

  lemma {:induction false} BulletsAt(items: seq<string>, k: int)
    requires 0 <= k < |items|
    ensures Bullets(items)[k] == "- " + items[k]
    decreases k
  {
    if k > 0 {
      BulletsAt(items[1..], k - 1);
    }
  }

  /** A bullet line of a clean item cleans back to the item. */
  lemma BulletBack(item: string)
    requires item != "" && IsTrimmed(item)
    ensures Trim(StripBullet("- " + item)) == item
  {
    TrimAfterDash(item);
  }

  /** Cleaning the bullet lines of clean items gives the items back. */
  lemma CleanBullets(items: seq<string>)
    requires forall k :: 0 <= k < |items| ==> CleanLine(items[k])
    ensures CleanItems(Bullets(items)) == items
  {
    var b := Bullets(items);
    forall k | 0 <= k < |items| ensures CleanedLine(b[k]) == [items[k]] {
      BulletsAt(items, k);
      BulletBack(items[k]);
    }
    FlatMapSingletons(CleanedLine, b, items);
  }

  /** Lines free of line breaks, all non-empty: no blank line when joined. */
  lemma {:induction false} JoinedLinesNoBlank(lines: seq<string>)
    requires |lines| >= 1
    requires forall k :: 0 <= k < |lines| ==> lines[k] != "" && '\n' !in lines[k]
    ensures NoBlankLine(Join(lines, "\n"))
    decreases |lines|
  {
    if |lines| > 1 {
      JoinedLinesNoBlank(lines[1..]);
      var rest := Join(lines[1..], "\n");
      var s := lines[0] + "\n" + rest;
      assert rest != "" && rest[0] == lines[1][0] by {
        JoinFirst(lines[1..], "\n");
      }
      forall i | 0 <= i < |s| && s[i] == '\n' ensures i + 1 < |s| && s[i + 1] != '\n' {
        if i > |lines[0]| {
          assert s[i] == rest[i - |lines[0]| - 1];
        }
      }
    }
  }

  /** The lines of a group's paragraph. */
  lemma GroupParagraph(h: string, items: seq<string>)
    requires |items| > 0
    ensures h + ":\n" + Join(Bullets(items), "\n") == Join([h + ":"] + Bullets(items), "\n")
  {
    HeaderJoin(h, Bullets(items));
  }

  lemma PlainRoundTrip(t: string)
    requires RoundTrips(Plain(t))
    ensures NoBlankLine(t) && ParseParagraph(t) == Some(Plain(t))
  {
    CharSepFree(t, '\n');
    SplitWhole(t, "\n");
    assert CleanItems([t][1..]) == [];
  }

  /** The lines of a group's paragraph, each non-empty and without a line break. */
  lemma GroupLines(h: string, items: seq<string>) returns (lines: seq<string>)
    requires RoundTrips(Group(h, items))
    ensures lines == [h + ":"] + Bullets(items)
    ensures h + ":\n" + Join(Bullets(items), "\n") == Join(lines, "\n")
    ensures forall k :: 0 <= k < |lines| ==> lines[k] != "" && '\n' !in lines[k] && SepFree(lines[k], "\n")
    ensures lines[|lines| - 1][|lines[|lines| - 1]| - 1] == items[|items| - 1][|items[|items| - 1]| - 1]
  {
    lines := [h + ":"] + Bullets(items);
    GroupParagraph(h, items);
    forall k | 0 <= k < |lines| ensures lines[k] != "" && '\n' !in lines[k] && SepFree(lines[k], "\n") {
      if k > 0 {
        BulletsAt(items, k - 1);
      }
      CharSepFree(lines[k], '\n');
    }
    BulletsAt(items, |items| - 1);
  }

  lemma GroupRoundTrip(h: string, items: seq<string>)
    requires RoundTrips(Group(h, items))
    ensures var p := h + ":\n" + Join(Bullets(items), "\n");
            IsTrimmed(p) && NoBlankLine(p) && ParseParagraph(p) == Some(Group(h, items))
  {
    var lines := GroupLines(h, items);
    var p := Join(lines, "\n");
    JoinedLinesNoBlank(lines);
    SplitJoin(lines, "\n");
    JoinFirst(lines, "\n");
    RemoveFirstColonAppended(h);
    assert lines[1..] == Bullets(items);
    CleanBullets(items);
  }

  /** A well-formed entry's paragraph: non-empty, trimmed, no blank line, and
      parsed back to the entry. */
  lemma EntryRoundTrip(e: Equipment, stringify: Equipment -> string)
    requires RoundTrips(e)
    ensures var p := SerializeEntry(e, stringify);
            p != "" && IsTrimmed(p) && NoBlankLine(p) && ParseParagraph(p) == Some(e)
  {
    match e
    case Plain(t) => PlainRoundTrip(t);
    case Group(h, items) => GroupRoundTrip(h, items);
  }

  lemma EntriesOfParsed(p: string, e: Equipment)
    requires ParseParagraph(p) == Some(e)
    ensures ParagraphEntries(p) == [e]
  {
  }

  /** Every entry's paragraph parses back to the entry, in order. */
  lemma ParagraphsRoundTrip(es: seq<Equipment>, stringify: Equipment -> string)
    requires forall k :: 0 <= k < |es| ==> RoundTrips(es[k])
    ensures ParseParagraphs(SerializeEntries(es, stringify)) == es
  {
    var ps := SerializeEntries(es, stringify);
    forall k | 0 <= k < |es| ensures ParagraphEntries(ps[k]) == [es[k]] {
      EntryRoundTrip(es[k], stringify);
      EntriesOfParsed(ps[k], es[k]);
    }
    FlatMapSingletons(ParagraphEntries, ps, es);
  }

  /** Serialising the equipment and parsing the text back gives the same list
      for entries the format carries. */
  lemma EquipmentRoundTrip(es: seq<Equipment>, stringify: Equipment -> string)
    requires forall k :: 0 <= k < |es| ==> RoundTrips(es[k])
    ensures ParseEquipment(SerializeEquipment(es, stringify)) == es
  {
    var ps := SerializeEntries(es, stringify);
    if |es| > 0 {
      forall k | 0 <= k < |ps| ensures ps[k] != "" && IsTrimmed(ps[k]) && SepFree(ps[k], "\n\n") {
        EntryRoundTrip(es[k], stringify);
        ParagraphSepFree(ps[k]);
      }
      JoinTrimmed(ps, "\n\n");
      JoinFirst(ps, "\n\n");
      SplitJoin(ps, "\n\n");
      ParagraphsRoundTrip(es, stringify);
    }
  }

  /** An item-less group does not survive the round trip, and takes the
      entry after it along: its paragraph "H:" ends in a line break, so the
      blank line before the next entry becomes three line breaks, and the
      split on blank lines leaves the next entry behind a line break, where
      its first line is blank and the paragraph is dropped. */
  lemma EmptyGroupSwallowsNext(stringify: Equipment -> string)
    ensures ParseEquipment(SerializeEquipment([Group("H", []), Plain("X")], stringify)) == [Plain("H:")]
  {
    EmptyGroupText(stringify);
    EmptyGroupTextTrimmed();
    EmptyGroupParagraphs();
    EmptyGroupEntries();
  }

  lemma EmptyGroupTextTrimmed()
    ensures Trim("H:\n\n\nX") == "H:\n\n\nX"
  {
    assert IsTrimmed("H:\n\n\nX");
  }

  /** The first paragraph gives the plain entry "H:", the second nothing. */
  lemma EmptyGroupEntries()
    ensures ParseParagraphs(["H:", "\nX"]) == [Plain("H:")]
  {
    HeaderOnlyParagraph();
    LeadingBreakParagraph();
    EntriesOfParsed("H:", Plain("H:"));
    EntriesOfDropped("\nX");
    KeptThenDropped("H:", "\nX", Plain("H:"));
  }

  lemma EntriesOfDropped(p: string)
    requires ParseParagraph(p).None?
    ensures ParagraphEntries(p) == []
  {
  }

  /** Two paragraphs of which only the first gives an entry. */
  lemma KeptThenDropped(a: string, b: string, e: Equipment)
    requires ParagraphEntries(a) == [e] && ParagraphEntries(b) == []
    ensures ParseParagraphs([a, b]) == [e]
  {
    var ps := [a, b];
    assert ps[0] == a && ps[1..] == [b] && [b][0] == b && [b][1..] == [];
    assert FlatMap(ParagraphEntries, [b]) == ParagraphEntries(b) + FlatMap(ParagraphEntries, []);
    assert FlatMap(ParagraphEntries, ps) == ParagraphEntries(a) + FlatMap(ParagraphEntries, [b]);
  }

  /** The text of an item-less group "H" and a plain "X": "H:\n\n\nX". */
  lemma EmptyGroupText(stringify: Equipment -> string)
    ensures SerializeEquipment([Group("H", []), Plain("X")], stringify) == "H:\n\n\nX"
  {
    var ps := SerializeEntries([Group("H", []), Plain("X")], stringify);
    assert Bullets([]) == [] && Join([], "\n") == "";
    assert SerializeEntry(Group("H", []), stringify) == "H:\n";
    assert ps == ["H:\n", "X"];
    assert Join(ps, "\n\n") == ps[0] + "\n\n" + Join(ps[1..], "\n\n");
    assert ps[1..] == ["X"];
  }

  /** The split on blank lines cuts at the first two of the three breaks. */
  lemma EmptyGroupParagraphs()
    ensures Split("H:\n\n\nX", "\n\n") == ["H:", "\nX"]
  {
    ParagraphSepFree("H:");
    ParagraphSepFree("\nX");
    SplitPiece("H:", "\n\n", "\nX");
    SplitWhole("\nX", "\n\n");
    assert "H:" + "\n\n" + "\nX" == "H:\n\n\nX";
  }

  /** A header line without items is read back as a plain entry, colon kept. */
  lemma HeaderOnlyParagraph()
    ensures ParseParagraph("H:") == Some(Plain("H:"))
  {
    CharSepFree("H:", '\n');
    SplitWhole("H:", "\n");
    assert RemoveFirstColon("H:") == "H";
    assert IsTrimmed("H") && IsTrimmed("H:");
  }

  /** A paragraph that opens with a line break has a blank first line and is
      dropped. */
  lemma LeadingBreakParagraph()
    ensures ParseParagraph("\nX") == None
  {
    assert StartsWith("\nX", "\n");
    assert Split("\nX", "\n")[0] == "";
    TrimBlank("");
  }
}
