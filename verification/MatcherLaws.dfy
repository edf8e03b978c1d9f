/** Printing and parsing a matcher undo each other, exactly where they can. */
module MatcherLaws {
  import opened Prelude
  import opened Text
  import opened Terms
  import opened Matchers

  // ---------------------------------------------------------------------------
  // Trimming
  // ---------------------------------------------------------------------------

  predicate EndsPlain(s: string) {
    s == [] || (!IsSpace(s[0]) && !IsSpace(s[|s| - 1]))
  }

  lemma {:induction false} TrimEndPlain(s: string)
    ensures TrimEnd(s) == [] || !IsSpace(TrimEnd(s)[|TrimEnd(s)| - 1])
    ensures TrimEnd(s) <= s
  {
    if s != [] && IsSpace(s[|s| - 1]) {
      TrimEndPlain(s[..|s| - 1]);
    }
  }

  lemma {:induction false} TrimStartPlain(s: string)
    ensures TrimStart(s) == [] || !IsSpace(TrimStart(s)[0])
    ensures forall c :: c in TrimStart(s) ==> c in s
  {
    if s != [] && IsSpace(s[0]) {
      TrimStartPlain(s[1..]);
    }
  }

  lemma TrimPlain(s: string)
    ensures EndsPlain(Trim(s)) && forall c :: c in Trim(s) ==> c in s
  {
    TrimStartPlain(s);
    TrimEndPlain(TrimStart(s));
  }

  /** Text with no space at either end is left alone, and only such text is. */
  lemma PlainIsTrimmed(s: string)
    ensures Trim(s) == s <==> EndsPlain(s)
    ensures Trim(Trim(s)) == Trim(s)
  {
    TrimPlain(s);
  }

  // ---------------------------------------------------------------------------
  // What can be printed
  // ---------------------------------------------------------------------------

  /** A value that survives being one of several comma-separated, trimmed values. */
  predicate Plain(value: string) {
    value != [] && ',' !in value && EndsPlain(value)
  }

  predicate PlainEmail(p: EmailPattern) {
    Plain(PrintPattern(p)) && ParsePattern(PrintPattern(p)) == Ok(p)
  }

  /** The values a printed matcher carries are plain; any other is split or trimmed on the way back. */
  predicate Printable(m: Matcher) {
    && Plain(m.issuer)
    && (m.email.Some? ==> PlainEmail(m.email.value))
    && (m.org.Some? ==> Plain(m.org.value))
    && (m.group.Some? ==> Plain(m.group.value))
  }

  predicate Names(key: string, k: Key) {
    match k
    case IssuerK => key == "issuer"
    case EmailK => key == "email"
    case OrgK => key == "org"
    case GroupK => key == "group"
  }

  lemma KeysArePlain(key: string, k: Key)
    requires Names(key, k)
    ensures key != [] && ',' !in key && '=' !in key && EndsPlain(key)
  {
  }

  lemma ReadsBack(key: string, k: Key, value: string)
    requires Names(key, k) && value != [] && EndsPlain(value)
    ensures ReadPart(Part(key, value)) == Ok((k, value))
  {
    var part := Part(key, value);
    assert part[..|key|] == key && part[|key| + 1..] == value && part[|key|] == '=';
    KeysArePlain(key, k);
    IndexIs(part, '=', |key|);
    PlainIsTrimmed(value);
    PlainIsTrimmed(key);
  }

  lemma {:induction false} AddPartsTwice(slots: Slots, a: seq<string>, b: seq<string>)
    requires AddParts(slots, a).Ok?
    ensures AddParts(slots, a + b) == AddParts(AddParts(slots, a).value, b)
    decreases |a|
  {
    if a == [] {
      assert a + b == b;
    } else {
      assert (a + b)[1..] == a[1..] + b;
      AddPartsTwice(AddPart(slots, a[0]).value, a[1..], b);
    }
  }

  lemma AddedOne(slots: Slots, part: string)
    ensures AddParts(slots, [part]) == AddPart(slots, part)
  {
  }

  /** One more part, if there is one, after those already read. */
  lemma AddsNext(parts: seq<string>, key: string, k: Key, value: Option<string>, slots: Slots, next: Slots)
    requires AddParts(NO_SLOTS, parts) == Ok(slots) && Names(key, k)
    requires value.None? ==> next == slots
    requires value.Some? ==> value.value != [] && EndsPlain(value.value) && Fill(slots, k, value.value) == Ok(next)
    ensures AddParts(NO_SLOTS, parts + PartIf(key, value)) == Ok(next)
  {
    if value.Some? {
      ReadsBack(key, k, value.value);
      AddPartsTwice(NO_SLOTS, parts, [Part(key, value.value)]);
      AddedOne(slots, Part(key, value.value));
    } else {
      assert parts + PartIf(key, value) == parts;
    }
  }

  lemma PartsReadBack(m: Matcher)
    requires Printable(m)
    ensures AddParts(NO_SLOTS, Parts(m)) == Ok(Slots(Some(m.issuer), m.email, m.org, m.group))
  {
    var issuer := Slots(Some(m.issuer), None, None, None);
    var email := issuer.(email := m.email);
    var org := email.(org := m.org);
    var parts := PartIf("issuer", Some(m.issuer));
    AddsNext([], "issuer", IssuerK, Some(m.issuer), NO_SLOTS, issuer);
    assert [] + parts == parts;
    AddsNext(parts, "email", EmailK, PrintedEmail(m), issuer, email);
    AddsNext(parts + PartIf("email", PrintedEmail(m)), "org", OrgK, m.org, email, org);
    AddsNext(parts + PartIf("email", PrintedEmail(m)) + PartIf("org", m.org), "group", GroupK, m.group,
             org, org.(group := m.group));
  }

  // ---------------------------------------------------------------------------
  // The printed text
  // ---------------------------------------------------------------------------

  lemma {:induction false} JoinEnds(parts: seq<string>, c: char)
    requires parts != [] && forall p :: p in parts ==> p != [] && EndsPlain(p)
    ensures Join(parts, c) != [] && EndsPlain(Join(parts, c))
  {
    assert parts[0] in parts;
    if |parts| > 1 {
      assert forall p :: p in parts[1..] ==> p in parts;
      JoinEnds(parts[1..], c);
    }
  }

  lemma PartPlain(key: string, k: Key, value: Option<string>)
    requires Names(key, k) && (value.Some? ==> Plain(value.value))
    ensures forall p :: p in PartIf(key, value) ==> Plain(p)
  {
  }

  lemma PartsArePlain(m: Matcher)
    requires Printable(m)
    ensures forall p :: p in Parts(m) ==> Plain(p)
  {
    PartPlain("issuer", IssuerK, Some(m.issuer));
    PartPlain("email", EmailK, PrintedEmail(m));
    PartPlain("org", OrgK, m.org);
    PartPlain("group", GroupK, m.group);
    assert [Part("issuer", m.issuer)] == PartIf("issuer", Some(m.issuer));
  }

  lemma PrintedHasEquals(m: Matcher)
    ensures '=' in PrintMatcher(m)
  {
  }

  lemma PrintedText(m: Matcher)
    requires Printable(m)
    ensures EndsPlain(PrintMatcher(m)) && Split(PrintMatcher(m), ',') == Parts(m)
  {
    PartsArePlain(m);
    assert forall p :: p in Parts(m) ==> Plain(p);
    SplitUndoesJoin(Parts(m), ',');
    JoinEnds(Parts(m), ',');
  }

  /** A printable matcher's text parses to it under every default that is not blank. */
  lemma PrintThenParse(m: Matcher, defaultIssuer: string)
    requires Printable(m) && !Blank(defaultIssuer)
    ensures ParseMatcher(PrintMatcher(m), defaultIssuer) == Ok(m)
  {
    PrintedHasEquals(m);
    PrintedText(m);
    PlainIsTrimmed(PrintMatcher(m));
    PartsReadBack(m);
  }

  // ---------------------------------------------------------------------------
  // What parsing makes is printable
  // ---------------------------------------------------------------------------

  /** Every filled slot holds a plain value. */
  predicate PlainSlots(slots: Slots) {
    && (slots.issuer.Some? ==> Plain(slots.issuer.value))
    && (slots.email.Some? ==> PlainEmail(slots.email.value))
    && (slots.org.Some? ==> Plain(slots.org.value))
    && (slots.group.Some? ==> Plain(slots.group.value))
  }

  lemma LowerPlain(value: string)
    requires Plain(value)
    ensures Plain(Lower(value))
  {
  }

  lemma LowerDomain(value: string)
    requires "*@" <= value
    ensures "*@" + Lower(value[2..]) == Lower(value)
  {
  }

  lemma ParsedEmailPlain(value: string)
    requires Plain(value) && ParsePattern(value).Ok?
    ensures PlainEmail(ParsePattern(value).value)
  {
    PatternReparses(value);
    LowerPlain(value);
    if "*@" <= value {
      LowerDomain(value);
    }
  }

  lemma PartValuePlain(part: string)
    requires ',' !in part && ReadPart(part).Ok?
    ensures Plain(ReadPart(part).value.1)
  {
    TrimPlain(part[IndexOf(part, '=') + 1..]);
  }

  lemma AddPartPlain(slots: Slots, part: string)
    requires PlainSlots(slots) && ',' !in part && AddPart(slots, part).Ok?
    ensures PlainSlots(AddPart(slots, part).value)
  {
    PartValuePlain(part);
    var (key, value) := ReadPart(part).value;
    if key == EmailK {
      ParsedEmailPlain(value);
    }
  }

  lemma {:induction false} SlotsStayPlain(slots: Slots, parts: seq<string>)
    requires PlainSlots(slots) && AddParts(slots, parts).Ok?
    requires forall p :: p in parts ==> ',' !in p
    ensures PlainSlots(AddParts(slots, parts).value)
    decreases |parts|
  {
    if parts != [] {
      AddPartPlain(slots, parts[0]);
      SlotsStayPlain(AddPart(slots, parts[0]).value, parts[1..]);
    }
  }

  /** Once an issuer slot is filled it stays filled. */
  lemma {:induction false} IssuerStays(slots: Slots, parts: seq<string>)
    requires slots.issuer.Some? && AddParts(slots, parts).Ok?
    ensures AddParts(slots, parts).value.issuer == slots.issuer
    decreases |parts|
  {
    if parts != [] {
      IssuerStays(AddPart(slots, parts[0]).value, parts[1..]);
    }
  }

  lemma FirstPartIsIssuer(text: string)
    requires "issuer=" <= text
    ensures var first := Split(text, ',')[0];
      ReadPart(first).Ok? ==> ReadPart(first).value.0 == IssuerK
  {
    var i := IndexOf(text, ',');
    assert text[..7] == "issuer=";
    IndexAfter(text, ',', 7);
    var first := Split(text, ',')[0];
    assert first == text[..i];
    assert first[..6] == text[..7][..6] == "issuer" && first[6] == text[..7][6] == '=';
    IndexIs(first, '=', 6);
    PlainIsTrimmed("issuer");
  }

  lemma {:induction false} TrimEndKeeps(s: string, n: nat)
    requires 0 < n <= |s| && !IsSpace(s[n - 1])
    ensures s[..n] <= TrimEnd(s)
  {
    if IsSpace(s[|s| - 1]) {
      TrimEndKeeps(s[..|s| - 1], n);
    }
  }

  lemma ReparsedIssuerIsPlain(text: string, defaultIssuer: string)
    requires "issuer=" <= text && ParseMatcher(text, defaultIssuer).Ok?
    ensures Printable(ParseMatcher(text, defaultIssuer).value)
  {
    assert text[6] == "issuer="[6] && text[0] == "issuer="[0];
    TrimEndKeeps(text, 7);
    var trimmed := Trim(text);
    assert "issuer=" <= trimmed;
    assert trimmed[6] == '=' && '=' in trimmed;
    var parts := Split(trimmed, ',');
    assert parts == [parts[0]] + parts[1..];
    FirstPartIsIssuer(trimmed);
    IssuerStays(AddPart(NO_SLOTS, parts[0]).value, parts[1..]);
    JoinUndoesSplit(trimmed, ',');
    SlotsStayPlain(NO_SLOTS, parts);
  }

  lemma PrintedStarts(m: Matcher)
    ensures "issuer=" <= PrintMatcher(m)
  {
  }

  /**
    Printing and then parsing gives a matcher back, under any default that is not blank, exactly when every
    value it carries is plain: not blank, no comma, no space at either end, and an email in parsed form.
   */
  lemma RoundTripIff(m: Matcher, defaultIssuer: string)
    requires !Blank(defaultIssuer)
    ensures ParseMatcher(PrintMatcher(m), defaultIssuer) == Ok(m) <==> Printable(m)
  {
    if Printable(m) {
      PrintThenParse(m, defaultIssuer);
    }
    if ParseMatcher(PrintMatcher(m), defaultIssuer) == Ok(m) {
      PrintedStarts(m);
      ReparsedIssuerIsPlain(PrintMatcher(m), defaultIssuer);
    }
  }

  /** Whether one of the pairs in `text` names the issuer. */
  predicate GivesIssuer(parts: seq<string>) {
    exists p :: p in parts && ReadPart(p).Ok? && ReadPart(p).value.0 == IssuerK
  }

  lemma {:induction false} IssuerFilledIff(slots: Slots, parts: seq<string>)
    requires AddParts(slots, parts).Ok?
    ensures AddParts(slots, parts).value.issuer.Some? <==> slots.issuer.Some? || GivesIssuer(parts)
    decreases |parts|
  {
    if parts != [] {
      IssuerFilledIff(AddPart(slots, parts[0]).value, parts[1..]);
      IssuerFilledOnce(slots, parts[0]);
      IssuerInFirst(parts);
    }
  }

  lemma IssuerFilledOnce(slots: Slots, part: string)
    requires AddPart(slots, part).Ok?
    ensures AddPart(slots, part).value.issuer.Some?
            <==> slots.issuer.Some? || (ReadPart(part).Ok? && ReadPart(part).value.0 == IssuerK)
  {
  }

  lemma IssuerInFirst(parts: seq<string>)
    requires parts != []
    ensures GivesIssuer(parts)
            <==> (ReadPart(parts[0]).Ok? && ReadPart(parts[0]).value.0 == IssuerK) || GivesIssuer(parts[1..])
  {
    assert parts == [parts[0]] + parts[1..];
  }

  /**
    Key=value text that was accepted prints to text that parses to the same matcher, under every later
    default that is not blank, exactly when one of its pairs names the issuer or the default it was read
    under has no comma in it: a pair cannot carry a comma, and a default issuer can.
   */
  lemma KeyValueRoundTripIff(text: string, defaultIssuer: string, later: string)
    requires '=' in Trim(text) && ParseMatcher(text, defaultIssuer).Ok? && !Blank(later)
    ensures var m := ParseMatcher(text, defaultIssuer).value;
      ParseMatcher(PrintMatcher(m), later) == Ok(m)
      <==> GivesIssuer(Split(Trim(text), ',')) || ',' !in Trim(defaultIssuer)
  {
    RoundTripIff(ParseMatcher(text, defaultIssuer).value, later);
    JoinUndoesSplit(Trim(text), ',');
    SlotsStayPlain(NO_SLOTS, Split(Trim(text), ','));
    IssuerFilledIff(NO_SLOTS, Split(Trim(text), ','));
    TrimPlain(defaultIssuer);
  }

  /** A bare email that was accepted comes back exactly when neither it nor the default issuer has a comma in it. */
  lemma BareEmailRoundTripIff(text: string, defaultIssuer: string, later: string)
    requires '=' !in Trim(text) && ParseMatcher(text, defaultIssuer).Ok? && !Blank(later)
    ensures var m := ParseMatcher(text, defaultIssuer).value;
      ParseMatcher(PrintMatcher(m), later) == Ok(m) <==> ',' !in Trim(text) && ',' !in Trim(defaultIssuer)
  {
    var m := ParseMatcher(text, defaultIssuer).value;
    RoundTripIff(m, later);
    TrimPlain(defaultIssuer);
    TrimPlain(text);
    if ',' in Trim(text) {
      PrintedKeepsComma(Trim(text));
    } else {
      ParsedEmailPlain(Trim(text));
    }
  }

  // Both ways of failing, at inputs the parser accepts.

  lemma BareAddress(text: string, at: nat, issuer: string)
    requires 0 < at < |text| - 1 && text[at] == '@' && '@' !in text[..at] && '@' !in text[at + 1..]
    requires '*' !in text && '=' !in text && EndsPlain(text) && !Blank(issuer)
    ensures Trim(text) == text
    ensures ParseMatcher(text, issuer) == Ok(Matcher(Trim(issuer), Some(Exact(Lower(text))), None, None))
  {
    IndexIs(text, '@', at);
    PlainIsTrimmed(text);
    assert text[0] != '*';
  }

  /** The bare email `a,b@x` is accepted, and its printed form does not parse back to it. */
  lemma CommaInEmailIsLost(issuer: string, later: string)
    requires !Blank(issuer) && !Blank(later)
    ensures ParseMatcher("a,b@x", issuer).Ok?
    ensures ParseMatcher(PrintMatcher(ParseMatcher("a,b@x", issuer).value), later) != ParseMatcher("a,b@x", issuer)
  {
    var text := "a,b@x";
    BareAddress(text, 3, issuer);
    assert text[1] == ',';
    BareEmailRoundTripIff(text, issuer, later);
  }

  lemma OrgPair(value: string, issuer: string)
    requires Plain(value) && !Blank(issuer)
    ensures var text := Part("org", value);
      && '=' in Trim(text) && !GivesIssuer(Split(Trim(text), ','))
      && ParseMatcher(text, issuer) == Ok(Matcher(Trim(issuer), None, Some(value), None))
  {
    var text := Part("org", value);
    PartPlain("org", OrgK, Some(value));
    assert text in PartIf("org", Some(value));
    PlainIsTrimmed(text);
    assert text[3] == '=';
    ReadsBack("org", OrgK, value);
    SplitWhole(text, ',');
    AddedOne(NO_SLOTS, text);
  }

  /** The pair `org=x`, read under the default issuer `a,b`, is accepted, and does not come back either. */
  lemma CommaInDefaultIsLost(later: string)
    requires !Blank(later)
    ensures ParseMatcher("org=x", "a,b").Ok?
    ensures ParseMatcher(PrintMatcher(ParseMatcher("org=x", "a,b").value), later) != ParseMatcher("org=x", "a,b")
  {
    var issuer := "a,b";
    PlainIsTrimmed(issuer);
    assert issuer[1] == ',';
    OrgPair("x", issuer);
    assert Part("org", "x") == "org=x";
    KeyValueRoundTripIff(Part("org", "x"), issuer, later);
  }

  lemma PrintedKeepsComma(value: string)
    requires ParsePattern(value).Ok? && ',' in value
    ensures ',' in PrintPattern(ParsePattern(value).value)
  {
  }

  // ---------------------------------------------------------------------------
  // What accepted text says
  // ---------------------------------------------------------------------------

  predicate SaysAt(part: string, i: int, key: string, value: string) {
    && 0 <= i < |part| && part[i] == '=' && '=' !in part[..i]
    && Trim(part[..i]) == key && Trim(part[i + 1..]) == value
  }

  /** Whether `part` is `key=value`, but for spaces around either and whatever `=` the value has in it. */
  ghost predicate Says(part: string, key: string, value: string) {
    exists i :: SaysAt(part, i, key, value)
  }

  lemma SaysIs(part: string, key: string, value: string)
    ensures Says(part, key, value) <==> SaysAt(part, IndexOf(part, '='), key, value)
  {
    if i :| SaysAt(part, i, key, value) {
      IndexIs(part, '=', i);
    }
  }

  /** Which pairs there are: the issuer by either name, the email, the organisation and the group, none empty. */
  lemma ReadPartIff(part: string, k: Key, value: string)
    ensures ReadPart(part) == Ok((k, value)) <==>
      && value != []
      && match k
         case IssuerK => Says(part, "issuer", value) || Says(part, "iss", value)
         case EmailK => Says(part, "email", value)
         case OrgK => Says(part, "org", value)
         case GroupK => Says(part, "group", value)
  {
    SaysIs(part, "issuer", value);
    SaysIs(part, "iss", value);
    SaysIs(part, "email", value);
    SaysIs(part, "org", value);
    SaysIs(part, "group", value);
  }

  /** Whether one of the parts gives key `k` this value. */
  predicate Gives(parts: seq<string>, k: Key, value: string) {
    exists p :: p in parts && ReadPart(p) == Ok((k, value))
  }

  function SlotOf(slots: Slots, k: Key): Option<string>
    requires k != EmailK
  {
    match k
    case IssuerK => slots.issuer
    case OrgK => slots.org
    case GroupK => slots.group
  }

  lemma FilledOnce(slots: Slots, part: string, k: Key, value: string)
    requires k != EmailK && AddPart(slots, part).Ok?
    ensures SlotOf(AddPart(slots, part).value, k) == Some(value)
            <==> SlotOf(slots, k) == Some(value) || ReadPart(part) == Ok((k, value))
  {
  }

  lemma {:induction false} FilledIff(slots: Slots, parts: seq<string>, k: Key, value: string)
    requires k != EmailK && AddParts(slots, parts).Ok?
    ensures SlotOf(AddParts(slots, parts).value, k) == Some(value)
            <==> SlotOf(slots, k) == Some(value) || Gives(parts, k, value)
    decreases |parts|
  {
    if parts != [] {
      FilledOnce(slots, parts[0], k, value);
      FilledIff(AddPart(slots, parts[0]).value, parts[1..], k, value);
      FilledByFirst(parts, k, value);
    }
  }

  lemma FilledByFirst(parts: seq<string>, k: Key, value: string)
    requires parts != []
    ensures Gives(parts, k, value) <==> ReadPart(parts[0]) == Ok((k, value)) || Gives(parts[1..], k, value)
  {
    assert parts == [parts[0]] + parts[1..];
  }

  lemma {:induction false} EmailFilledIff(slots: Slots, parts: seq<string>, pattern: EmailPattern)
    requires AddParts(slots, parts).Ok?
    ensures AddParts(slots, parts).value.email == Some(pattern) <==>
      || slots.email == Some(pattern)
      || (exists v :: Gives(parts, EmailK, v) && ParsePattern(v) == Ok(pattern))
    decreases |parts|
  {
    if parts != [] {
      EmailFilledIff(AddPart(slots, parts[0]).value, parts[1..], pattern);
      forall v
        ensures Gives(parts, EmailK, v) <==> ReadPart(parts[0]) == Ok((EmailK, v)) || Gives(parts[1..], EmailK, v)
      {
        FilledByFirst(parts, EmailK, v);
      }
    }
  }

  /**
    What accepted key=value text means: the organisation, the group and the issuer are what some pair says
    they are, the issuer by either of its names and by default the one given, and the email pattern is what
    some pair's parses to.
   */
  lemma MatcherIsAsWritten(text: string, defaultIssuer: string, value: string, pattern: EmailPattern)
    requires '=' in Trim(text) && ParseMatcher(text, defaultIssuer).Ok?
    ensures var (m, parts) := (ParseMatcher(text, defaultIssuer).value, Split(Trim(text), ','));
      && (m.org == Some(value) <==> Gives(parts, OrgK, value))
      && (m.group == Some(value) <==> Gives(parts, GroupK, value))
      && (m.email == Some(pattern) <==> exists v :: Gives(parts, EmailK, v) && ParsePattern(v) == Ok(pattern))
      && (Gives(parts, IssuerK, value) ==> m.issuer == value)
      && (!GivesIssuer(parts) ==> m.issuer == Trim(defaultIssuer))
  {
    var parts := Split(Trim(text), ',');
    FilledIff(NO_SLOTS, parts, OrgK, value);
    FilledIff(NO_SLOTS, parts, GroupK, value);
    FilledIff(NO_SLOTS, parts, IssuerK, value);
    EmailFilledIff(NO_SLOTS, parts, pattern);
    IssuerFilledIff(NO_SLOTS, parts);
  }

  /** Which key=value text is accepted: every part is a pair, every email a pattern, and no key is given twice. */
  predicate Acceptable(parts: seq<string>) {
    && (forall p :: p in parts ==>
          ReadPart(p).Ok? && (ReadPart(p).value.0 == EmailK ==> ParsePattern(ReadPart(p).value.1).Ok?))
    && (forall i, j :: 0 <= i < j < |parts| ==> ReadPart(parts[i]).value.0 != ReadPart(parts[j]).value.0)
  }

  predicate Open(slots: Slots, k: Key) {
    if k == EmailK then slots.email.None? else SlotOf(slots, k).None?
  }

  lemma AddPartOkIff(slots: Slots, part: string, k: Key)
    ensures AddPart(slots, part).Ok? <==>
      && ReadPart(part).Ok? && Open(slots, ReadPart(part).value.0)
      && (ReadPart(part).value.0 == EmailK ==> ParsePattern(ReadPart(part).value.1).Ok?)
    ensures AddPart(slots, part).Ok? ==>
      (Open(AddPart(slots, part).value, k) <==> Open(slots, k) && k != ReadPart(part).value.0)
  {
  }

  ghost predicate AllOpen(slots: Slots, parts: seq<string>) {
    forall p :: p in parts && ReadPart(p).Ok? ==> Open(slots, ReadPart(p).value.0)
  }

  lemma {:induction false} AddPartsOkIff(slots: Slots, parts: seq<string>)
    ensures AddParts(slots, parts).Ok? <==> Acceptable(parts) && AllOpen(slots, parts)
    decreases |parts|
  {
    if parts != [] {
      AcceptableFirst(parts);
      assert parts == [parts[0]] + parts[1..];
      forall k ensures AddPart(slots, parts[0]).Ok? ==>
        (Open(AddPart(slots, parts[0]).value, k) <==> Open(slots, k) && k != ReadPart(parts[0]).value.0)
      {
        AddPartOkIff(slots, parts[0], k);
      }
      AddPartOkIff(slots, parts[0], OrgK);
      if AddPart(slots, parts[0]).Ok? {
        var next := AddPart(slots, parts[0]).value;
        AddPartsOkIff(next, parts[1..]);
        OpenNext(slots, next, parts);
      }
    }
  }

  lemma OpenNext(slots: Slots, next: Slots, parts: seq<string>)
    requires parts != [] && ReadPart(parts[0]).Ok? && Open(slots, ReadPart(parts[0]).value.0)
    requires forall k :: Open(next, k) <==> Open(slots, k) && k != ReadPart(parts[0]).value.0
    ensures AllOpen(next, parts[1..]) <==>
      && AllOpen(slots, parts)
      && forall p :: p in parts[1..] && ReadPart(p).Ok? ==> ReadPart(p).value.0 != ReadPart(parts[0]).value.0
  {
    assert parts == [parts[0]] + parts[1..];
  }

  lemma AcceptableFirst(parts: seq<string>)
    requires parts != []
    ensures Acceptable(parts) <==>
      && ReadPart(parts[0]).Ok?
      && (ReadPart(parts[0]).value.0 == EmailK ==> ParsePattern(ReadPart(parts[0]).value.1).Ok?)
      && Acceptable(parts[1..])
      && forall p :: p in parts[1..] ==> ReadPart(p).value.0 != ReadPart(parts[0]).value.0
  {
    var rest := parts[1..];
    assert parts == [parts[0]] + rest;
    if Acceptable(parts) {
      forall p | p in rest ensures ReadPart(p).value.0 != ReadPart(parts[0]).value.0 {
        var i :| 0 <= i < |rest| && rest[i] == p;
        assert parts[i + 1] == p;
      }
      forall i, j | 0 <= i < j < |rest| ensures ReadPart(rest[i]).value.0 != ReadPart(rest[j]).value.0 {
        assert parts[i + 1] == rest[i] && parts[j + 1] == rest[j];
      }
    }
  }

  lemma AcceptedIff(text: string, defaultIssuer: string)
    requires '=' in Trim(text)
    ensures ParseMatcher(text, defaultIssuer).Ok? <==> !Blank(defaultIssuer) && Acceptable(Split(Trim(text), ','))
  {
    var parts := Split(Trim(text), ',');
    AddPartsOkIff(NO_SLOTS, parts);
  }

  function Commas(parts: seq<string>): string {
    if parts == [] then "" else [','] + parts[0] + Commas(parts[1..])
  }

  lemma {:induction false} JoinIs(parts: seq<string>)
    requires parts != []
    ensures Join(parts, ',') == parts[0] + Commas(parts[1..])
  {
    if |parts| > 1 {
      JoinIs(parts[1..]);
    }
  }

  lemma {:induction false} CommasConcat(a: seq<string>, b: seq<string>)
    ensures Commas(a + b) == Commas(a) + Commas(b)
  {
    if a == [] {
      assert a + b == b;
    } else {
      assert (a + b)[1..] == a[1..] + b;
      CommasConcat(a[1..], b);
    }
  }

  /** What is printed, spelt out: the issuer, then each key the matcher has, in this order. */
  lemma PrintedIs(m: Matcher)
    ensures PrintMatcher(m)
         == "issuer=" + m.issuer + Commas(PartIf("email", PrintedEmail(m)))
            + Commas(PartIf("org", m.org)) + Commas(PartIf("group", m.group))
  {
    var email, org, group := PartIf("email", PrintedEmail(m)), PartIf("org", m.org), PartIf("group", m.group);
    JoinOfFour(Part("issuer", m.issuer), email, org, group);
    assert "issuer" + "=" == "issuer=";
  }

  lemma JoinOfFour(first: string, a: seq<string>, b: seq<string>, c: seq<string>)
    ensures Join([first] + a + b + c, ',') == first + Commas(a) + Commas(b) + Commas(c)
  {
    JoinIs([first] + a + b + c);
    assert ([first] + a + b + c)[1..] == a + b + c;
    CommasOfThree(a, b, c);
    Regrouped(first, Commas(a), Commas(b), Commas(c));
  }

  lemma CommasOfThree(a: seq<string>, b: seq<string>, c: seq<string>)
    ensures Commas(a + b + c) == Commas(a) + Commas(b) + Commas(c)
  {
    CommasConcat(a + b, c);
    CommasConcat(a, b);
  }

  lemma Regrouped(first: string, a: string, b: string, c: string)
    ensures first + (a + b + c) == first + a + b + c
  {
  }

  /** Each key is printed behind a comma and before an `=` and its value, or not at all. */
  lemma KeyPrinted(key: string, value: Option<string>)
    ensures Commas(PartIf(key, value)) == if value.Some? then "," + key + "=" + value.value else ""
  {
  }

  // ---------------------------------------------------------------------------
  // The order of the pairs
  // ---------------------------------------------------------------------------

  /** Two parts can be read in either order. */
  lemma PartsCommute(slots: Slots, x: string, y: string)
    requires AddPart(slots, x).Ok? && AddPart(AddPart(slots, x).value, y).Ok?
    ensures AddPart(slots, y).Ok?
    ensures AddPart(AddPart(slots, y).value, x) == AddPart(AddPart(slots, x).value, y)
  {
    var (k, v) := ReadPart(x).value;
    var (l, w) := ReadPart(y).value;
    assert k != l;
  }

  function Adder(): (Slots, string) -> Result<Slots, MatcherError> {
    (slots: Slots, part: string) => AddPart(slots, part)
  }

  lemma {:induction false} AddPartsIsSteps(slots: Slots, parts: seq<string>)
    ensures AddParts(slots, parts) == Steps(slots, parts, Adder())
    decreases |parts|
  {
    if parts != [] && AddPart(slots, parts[0]).Ok? {
      AddPartsIsSteps(AddPart(slots, parts[0]).value, parts[1..]);
    }
  }

  /** Any order of the same parts fills the same slots. */
  lemma PartsInAnyOrder(slots: Slots, parts: seq<string>, order: seq<string>)
    requires multiset(parts) == multiset(order)
    requires AddParts(slots, order).Ok?
    ensures AddParts(slots, parts) == AddParts(slots, order)
  {
    forall s, x, y | AddPart(s, x).Ok? && AddPart(AddPart(s, x).value, y).Ok?
      ensures AddPart(s, y).Ok? && AddPart(AddPart(s, y).value, x) == AddPart(AddPart(s, x).value, y)
    {
      PartsCommute(s, x, y);
    }
    AddPartsIsSteps(slots, parts);
    AddPartsIsSteps(slots, order);
    AnyOrder(slots, parts, order, Adder());
  }

  // Spaces around the whole text do not matter either.

  lemma {:induction false} TrimDropsLast(v: string)
    requires v != [] && IsSpace(v[|v| - 1])
    ensures Trim(v) == Trim(v[..|v| - 1])
    decreases |v|
  {
    var init := v[..|v| - 1];
    if init == [] {
      assert v[1..] == [];
    } else if IsSpace(v[0]) {
      TrimDropsLast(v[1..]);
      assert v[1..][..|v| - 2] == init[1..];
    }
  }

  lemma ReadPartDropsFirst(p: string)
    requires p != [] && IsSpace(p[0])
    ensures ReadPart(p[1..]) == ReadPart(p)
  {
    var i := IndexOf(p, '=');
    if i < |p| {
      assert p[..i][1..] == p[1..][..i - 1];
      assert p[i + 1..] == p[1..][i..];
    }
  }

  lemma InitIndex(p: string)
    requires p != [] && IsSpace(p[|p| - 1])
    ensures IndexOf(p[..|p| - 1], '=') == if '=' in p then IndexOf(p, '=') else |p| - 1
  {
    var i, init := IndexOf(p, '='), p[..|p| - 1];
    if i < |p| {
      assert init[..i] == p[..i];
      IndexIs(init, '=', i);
    } else {
      assert forall c :: c in init ==> c in p;
    }
  }

  lemma InitCuts(p: string, i: nat)
    requires i < |p| - 1 && IsSpace(p[|p| - 1])
    ensures p[..|p| - 1][..i] == p[..i] && Trim(p[..|p| - 1][i + 1..]) == Trim(p[i + 1..])
  {
    var value := p[i + 1..];
    assert value[|value| - 1] == p[|p| - 1];
    TrimDropsLast(value);
    assert p[..|p| - 1][i + 1..] == value[..|value| - 1];
  }

  /** Parts with the same text on either side of their first `=`, or with none, read alike. */
  lemma SameReading(p: string, q: string)
    requires '=' in p <==> '=' in q
    requires '=' in p ==>
      var (i, j) := (IndexOf(p, '='), IndexOf(q, '='));
      Trim(p[..i]) == Trim(q[..j]) && Trim(p[i + 1..]) == Trim(q[j + 1..])
    ensures ReadPart(p) == ReadPart(q)
  {
  }

  lemma ReadPartDropsLast(p: string)
    requires p != [] && IsSpace(p[|p| - 1])
    ensures ReadPart(p[..|p| - 1]) == ReadPart(p)
  {
    InitIndex(p);
    if '=' in p {
      InitCuts(p, IndexOf(p, '='));
    }
    SameReading(p[..|p| - 1], p);
  }

  lemma {:induction false} SplitDropsFirst(s: string)
    requires s != [] && IsSpace(s[0])
    ensures var parts := Split(s, ',');
      parts[0] != [] && IsSpace(parts[0][0]) && Split(s[1..], ',') == [parts[0][1..]] + parts[1..]
  {
    var i := IndexOf(s, ',');
    if i < |s| {
      assert s[1..][..i - 1] == s[..i][1..] && s[1..][i..] == s[i + 1..];
    }
  }

  lemma SplitWhole(s: string, c: char)
    requires c !in s
    ensures Split(s, c) == [s]
  {
  }

  predicate EndsInSpace(s: string) {
    s != [] && IsSpace(s[|s| - 1])
  }

  function Init(s: string): string
    requires s != []
  {
    s[..|s| - 1]
  }

  lemma CutAtComma(s: string) returns (p: string, rest: string)
    requires EndsInSpace(s) && ',' in s
    ensures ',' !in p && EndsInSpace(rest) && |rest| < |s|
    ensures s == p + [','] + rest && Init(s) == p + [','] + Init(rest)
  {
    var i := IndexOf(s, ',');
    p, rest := s[..i], s[i + 1..];
  }

  lemma SplitAfterComma(p: string, rest: string, a: seq<string>, x: string)
    requires ',' !in p && Split(rest, ',') == a + [x]
    ensures Split(p + [','] + rest, ',') == ([p] + a) + [x]
  {
    SplitFirst(p, rest, ',');
    assert [p] + (a + [x]) == ([p] + a) + [x];
  }

  lemma {:induction false} SplitDropsLast(s: string) returns (a: seq<string>, x: string)
    requires EndsInSpace(s)
    ensures EndsInSpace(x) && Split(s, ',') == a + [x] && Split(Init(s), ',') == a + [Init(x)]
    decreases |s|
  {
    if ',' in s {
      var p, rest := CutAtComma(s);
      var b;
      b, x := SplitDropsLast(rest);
      a := [p] + b;
      SplitAfterComma(p, rest, b, x);
      SplitAfterComma(p, Init(rest), b, Init(x));
    } else {
      a, x := [], s;
      SplitWhole(s, ',');
      InitHasFewer(s, ',');
      SplitWhole(Init(s), ',');
    }
  }

  lemma InitHasFewer(s: string, c: char)
    requires s != [] && c !in s
    ensures c !in Init(s)
  {
  }

  lemma SameParts(slots: Slots, a: seq<string>, x: string, y: string, b: seq<string>)
    requires ReadPart(x) == ReadPart(y)
    ensures AddParts(slots, a + [x] + b) == AddParts(slots, a + [y] + b)
    decreases |a|
  {
    if a == [] {
      assert (a + [x] + b)[1..] == b && (a + [y] + b)[1..] == b;
    } else {
      assert (a + [x] + b)[1..] == a[1..] + [x] + b && (a + [y] + b)[1..] == a[1..] + [y] + b;
      if AddPart(slots, a[0]).Ok? {
        SameParts(AddPart(slots, a[0]).value, a[1..], x, y, b);
      }
    }
  }

  lemma {:induction false} StartDoesNotMatter(s: string)
    ensures AddParts(NO_SLOTS, Split(TrimStart(s), ',')) == AddParts(NO_SLOTS, Split(s, ','))
  {
    if s != [] && IsSpace(s[0]) {
      StartDoesNotMatter(s[1..]);
      SplitDropsFirst(s);
      var parts := Split(s, ',');
      ReadPartDropsFirst(parts[0]);
      SameParts(NO_SLOTS, [], parts[0], parts[0][1..], parts[1..]);
      assert [] + [parts[0]] + parts[1..] == parts;
      assert [] + [parts[0][1..]] + parts[1..] == Split(s[1..], ',');
    }
  }

  lemma SameLast(slots: Slots, a: seq<string>, x: string, y: string)
    requires ReadPart(x) == ReadPart(y)
    ensures AddParts(slots, a + [x]) == AddParts(slots, a + [y])
  {
    SameParts(slots, a, x, y, []);
    assert a + [x] + [] == a + [x] && a + [y] + [] == a + [y];
  }

  lemma {:induction false} EndDoesNotMatter(s: string)
    ensures AddParts(NO_SLOTS, Split(TrimEnd(s), ',')) == AddParts(NO_SLOTS, Split(s, ','))
  {
    if EndsInSpace(s) {
      EndDoesNotMatter(Init(s));
      var a, x := SplitDropsLast(s);
      ReadPartDropsLast(x);
      SameLast(NO_SLOTS, a, x, Init(x));
    }
  }

  lemma {:induction false} TrimStartKeeps(s: string, c: char)
    requires c in s && !IsSpace(c)
    ensures c in TrimStart(s)
  {
    if IsSpace(s[0]) {
      assert s == [s[0]] + s[1..];
      TrimStartKeeps(s[1..], c);
    }
  }

  lemma TrimKeeps(s: string, c: char)
    requires c in s && !IsSpace(c)
    ensures c in Trim(s)
  {
    TrimStartKeeps(s, c);
    var t := TrimStart(s);
    var i :| 0 <= i < |t| && t[i] == c;
    TrimEndKeeps(t, i + 1);
    assert t[..i + 1][i] == c;
  }

  /** Writing the pairs of accepted key=value text in any order parses to the same matcher. */
  lemma PairsInAnyOrder(parts: seq<string>, order: seq<string>, defaultIssuer: string)
    requires parts != [] && order != [] && multiset(parts) == multiset(order)
    requires forall p :: p in parts ==> ',' !in p
    requires '=' in Trim(Join(order, ',')) && ParseMatcher(Join(order, ','), defaultIssuer).Ok?
    ensures ParseMatcher(Join(parts, ','), defaultIssuer) == ParseMatcher(Join(order, ','), defaultIssuer)
  {
    forall p | p in order ensures p in parts {
      assert p in multiset(order);
    }
    SplitUndoesJoin(parts, ',');
    SplitUndoesJoin(order, ',');
    SlotsOf(Join(parts, ','));
    SlotsOf(Join(order, ','));
    PartsInAnyOrder(NO_SLOTS, parts, order);
    assert parts == [parts[0]] + parts[1..];
    JoinHas(parts, ',', '=');
    TrimKeeps(Join(parts, ','), '=');
  }

  lemma SlotsOf(s: string)
    ensures AddParts(NO_SLOTS, Split(Trim(s), ',')) == AddParts(NO_SLOTS, Split(s, ','))
  {
    StartDoesNotMatter(s);
    EndDoesNotMatter(TrimStart(s));
  }

  lemma JoinHas(parts: seq<string>, c: char, x: char)
    requires parts != [] && x in parts[0]
    ensures x in Join(parts, c)
  {
  }
}
