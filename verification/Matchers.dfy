/** The matcher grammar: parsing what an admin types, and printing what was stored. */
module Matchers {
  import opened Prelude
  import opened Text
  import opened Terms
  import opened Roles

  // ---------------------------------------------------------------------------
  // Email patterns
  // ---------------------------------------------------------------------------

  /** An address, or `*@domain`, the only glob; stored in lower case. */
  function ParsePattern(s: string): Result<EmailPattern, Error> {
    if "*@" <= s then
      var domain := s[2..];
      if domain == [] || '*' in domain || '@' in domain then Err(InvalidEmailPattern) else Ok(Domain(Lower(domain)))
    else if '*' in s then Err(InvalidEmailPattern)
    else
      var i := IndexOf(s, '@');
      if 0 < i < |s| - 1 && '@' !in s[i + 1..] then Ok(Exact(Lower(s))) else Err(InvalidEmailPattern)
  }

  function PrintPattern(p: EmailPattern): string {
    match p
    case Exact(address) => address
    case Domain(domain) => "*@" + domain
  }

  /** Lower-casing neither makes nor unmakes a character that is not a letter. */
  lemma LowerKeeps(s: string, c: char)
    requires !('A' <= c <= 'Z') && !('a' <= c <= 'z')
    ensures c in Lower(s) <==> c in s
    ensures IndexOf(Lower(s), c) == IndexOf(s, c)
  {
  }

  lemma DomainReparses(domain: string)
    requires domain != [] && '*' !in domain && '@' !in domain
    ensures ParsePattern("*@" + Lower(domain)) == Ok(Domain(Lower(domain)))
  {
    LowerKeeps(domain, '*');
    LowerKeeps(domain, '@');
    LowerTwice(domain);
    assert ("*@" + Lower(domain))[2..] == Lower(domain);
  }

  lemma AddressReparses(s: string)
    requires !("*@" <= s) && ParsePattern(s).Ok?
    ensures ParsePattern(Lower(s)) == Ok(Exact(Lower(s)))
  {
    var i := IndexOf(s, '@');
    LowerKeeps(s, '*');
    LowerKeeps(s, '@');
    LowerTwice(s);
    assert Lower(s)[i + 1..] == Lower(s[i + 1..]);
    LowerKeeps(s[i + 1..], '@');
    assert '*' !in Lower(s);
  }

  /** Every accepted pattern parses again to itself, so it matches the same addresses. */
  lemma PatternReparses(s: string)
    requires ParsePattern(s).Ok?
    ensures ParsePattern(PrintPattern(ParsePattern(s).value)) == ParsePattern(s)
  {
    if "*@" <= s {
      DomainReparses(s[2..]);
    } else {
      AddressReparses(s);
    }
  }

  /**
    What an admin may write for an email: `*@` and a domain, or an address with one `@`, something on both
    sides of it and no `*`.
   */
  lemma PatternAcceptedIff(s: string)
    ensures ParsePattern(s).Ok? <==>
      || (exists d :: s == "*@" + d && d != [] && '*' !in d && '@' !in d)
      || (exists at :: 0 < at < |s| - 1 && s[at] == '@' && '*' !in s && '@' !in s[..at] && '@' !in s[at + 1..])
  {
    if "*@" <= s {
      assert s == "*@" + s[2..];
      assert s[0] == '*' && s[0] in s;
    } else {
      var i := IndexOf(s, '@');
      if at :| 0 < at < |s| - 1 && s[at] == '@' && '*' !in s && '@' !in s[..at] && '@' !in s[at + 1..] {
        IndexIs(s, '@', at);
      }
    }
  }

  /** An accepted address matches exactly itself, in any case of letters. */
  lemma AddressMatches(s: string, email: string)
    requires ParsePattern(s).Ok? && !("*@" <= s)
    ensures PatternMatches(ParsePattern(s).value, email) <==> Lower(email) == Lower(s)
  {
    LowerTwice(s);
  }

  /** Every accepted domain pattern matches exactly the addresses at that very domain, in any case of letters. */
  lemma DomainMatches(s: string, email: string)
    requires ParsePattern(s).Ok? && ParsePattern(s).value.Domain?
    ensures "*@" <= s && Lower(s[2..]) == ParsePattern(s).value.domain
    ensures PatternMatches(ParsePattern(s).value, email)
            <==> exists i :: 0 < i < |email| && email[i] == '@' && Lower(email[i + 1..]) == Lower(s[2..])
  {
    LowerTwice(s[2..]);
    LowerKeeps(s[2..], '@');
    AtItsDomain(Lower(s[2..]), email);
  }

  lemma AtItsDomain(domain: string, email: string)
    requires '@' !in domain && Lower(domain) == domain
    ensures PatternMatches(Domain(domain), email)
            <==> exists i :: 0 < i < |email| && email[i] == '@' && Lower(email[i + 1..]) == domain
  {
  }

  // ---------------------------------------------------------------------------
  // Parts
  // ---------------------------------------------------------------------------

  function Split(s: string, c: char): (r: seq<string>)
    ensures r != []
    decreases |s|
  {
    var i := IndexOf(s, c);
    if i == |s| then [s] else [s[..i]] + Split(s[i + 1..], c)
  }

  function Join(parts: seq<string>, c: char): string
    requires parts != []
  {
    if |parts| == 1 then parts[0] else parts[0] + [c] + Join(parts[1..], c)
  }

  lemma SplitFirst(p: string, rest: string, c: char)
    requires c !in p
    ensures Split(p + [c] + rest, c) == [p] + Split(rest, c)
  {
    var whole := p + [c] + rest;
    assert whole[..|p|] == p && whole[|p| + 1..] == rest && whole[|p|] == c;
    IndexIs(whole, c, |p|);
  }

  lemma {:induction false} SplitUndoesJoin(parts: seq<string>, c: char)
    requires parts != [] && forall p :: p in parts ==> c !in p
    ensures Split(Join(parts, c), c) == parts
  {
    assert parts == [parts[0]] + parts[1..];
    if |parts| > 1 {
      SplitUndoesJoin(parts[1..], c);
      SplitFirst(parts[0], Join(parts[1..], c), c);
    }
  }

  lemma {:induction false} JoinUndoesSplit(s: string, c: char)
    ensures Join(Split(s, c), c) == s
    ensures forall p :: p in Split(s, c) ==> c !in p
    decreases |s|
  {
    var i := IndexOf(s, c);
    if i < |s| {
      JoinUndoesSplit(s[i + 1..], c);
      var rest := Split(s[i + 1..], c);
      assert ([s[..i]] + rest)[1..] == rest;
      assert s == s[..i] + [c] + s[i + 1..];
    }
  }

  // ---------------------------------------------------------------------------
  // Pairs
  // ---------------------------------------------------------------------------

  datatype MatcherError = EmptyIssuer | NotAnEmail | NoEquals | EmptyValue | GivenTwice | UnknownKey

  datatype Key = IssuerK | EmailK | OrgK | GroupK

  /** The key and value of one `key=value` part. */
  function ReadPart(part: string): Result<(Key, string), MatcherError> {
    var i := IndexOf(part, '=');
    if i == |part| then Err(NoEquals)
    else
      var key, value := Trim(part[..i]), Trim(part[i + 1..]);
      if value == [] then Err(EmptyValue)
      else if key == "issuer" || key == "iss" then Ok((IssuerK, value))
      else if key == "org" then Ok((OrgK, value))
      else if key == "group" then Ok((GroupK, value))
      else if key == "email" then Ok((EmailK, value))
      else Err(UnknownKey)
  }

  datatype Slots = Slots(
    issuer: Option<string>, email: Option<EmailPattern>, org: Option<string>, group: Option<string>)

  const NO_SLOTS := Slots(None, None, None, None)

  /** Each slot is filled at most once. */
  function Fill(slots: Slots, key: Key, value: string): Result<Slots, MatcherError> {
    match key
    case IssuerK => if slots.issuer.Some? then Err(GivenTwice) else Ok(slots.(issuer := Some(value)))
    case OrgK => if slots.org.Some? then Err(GivenTwice) else Ok(slots.(org := Some(value)))
    case GroupK => if slots.group.Some? then Err(GivenTwice) else Ok(slots.(group := Some(value)))
    case EmailK =>
      if slots.email.Some? then Err(GivenTwice)
      else
        match ParsePattern(value)
        case Ok(pattern) => Ok(slots.(email := Some(pattern)))
        case Err(_) => Err(NotAnEmail)
  }

  function AddPart(slots: Slots, part: string): Result<Slots, MatcherError> {
    var pair :- ReadPart(part);
    Fill(slots, pair.0, pair.1)
  }

  function AddParts(slots: Slots, parts: seq<string>): Result<Slots, MatcherError>
    decreases |parts|
  {
    if parts == [] then Ok(slots)
    else
      var next :- AddPart(slots, parts[0]);
      AddParts(next, parts[1..])
  }

  function MatcherOf(slots: Slots, defaultIssuer: string): Matcher {
    Matcher(if slots.issuer.Some? then slots.issuer.value else defaultIssuer, slots.email, slots.org, slots.group)
  }

  function ParseMatcher(text: string, defaultIssuer: string): Result<Matcher, MatcherError> {
    var trimmed, issuer := Trim(text), Trim(defaultIssuer);
    if issuer == [] then Err(EmptyIssuer)
    else if '=' !in trimmed then
      match ParsePattern(trimmed)
      case Ok(pattern) => Ok(Matcher(issuer, Some(pattern), None, None))
      case Err(_) => Err(NotAnEmail)
    else
      var slots :- AddParts(NO_SLOTS, Split(trimmed, ','));
      Ok(MatcherOf(slots, issuer))
  }

  /** The parser as it runs: one slot per key, filled part by part. */
  method FillSlots(parts: seq<string>) returns (r: Result<Slots, MatcherError>)
    ensures r == AddParts(NO_SLOTS, parts)
  {
    var slots := NO_SLOTS;
    assert parts[0..] == parts;
    for n := 0 to |parts|
      invariant AddParts(NO_SLOTS, parts) == AddParts(slots, parts[n..])
    {
      assert parts[n..][0] == parts[n] && parts[n..][1..] == parts[n + 1..];
      var part := parts[n];
      var i := IndexOf(part, '=');
      if i == |part| {
        return Err(NoEquals);
      }
      var key, value := Trim(part[..i]), Trim(part[i + 1..]);
      if value == [] {
        return Err(EmptyValue);
      }
      var filled;
      if key == "issuer" || key == "iss" {
        filled := slots.issuer;
        slots := slots.(issuer := Some(value));
      } else if key == "org" {
        filled := slots.org;
        slots := slots.(org := Some(value));
      } else if key == "group" {
        filled := slots.group;
        slots := slots.(group := Some(value));
      } else if key == "email" {
        if slots.email.Some? {
          return Err(GivenTwice);
        }
        var pattern := ParsePattern(value);
        if pattern.Err? {
          return Err(NotAnEmail);
        }
        slots := slots.(email := Some(pattern.value));
        continue;
      } else {
        return Err(UnknownKey);
      }
      if filled.Some? {
        return Err(GivenTwice);
      }
    }
    return Ok(slots);
  }

  method Parse(text: string, defaultIssuer: string) returns (r: Result<Matcher, MatcherError>)
    ensures r == ParseMatcher(text, defaultIssuer)
  {
    var trimmed, issuer := Trim(text), Trim(defaultIssuer);
    if issuer == [] {
      return Err(EmptyIssuer);
    }
    if '=' !in trimmed {
      var pattern := ParsePattern(trimmed);
      return if pattern.Ok? then Ok(Matcher(issuer, Some(pattern.value), None, None)) else Err(NotAnEmail);
    }
    var slots :- FillSlots(Split(trimmed, ','));
    return Ok(MatcherOf(slots, issuer));
  }

  // ---------------------------------------------------------------------------
  // Printing
  // ---------------------------------------------------------------------------

  function Part(key: string, value: string): string {
    key + "=" + value
  }

  function PartIf(key: string, value: Option<string>): seq<string> {
    if value.Some? then [Part(key, value.value)] else []
  }

  function PrintedEmail(m: Matcher): Option<string> {
    if m.email.Some? then Some(PrintPattern(m.email.value)) else None
  }

  /** The issuer, then the keys present, in that order. */
  function Parts(m: Matcher): (r: seq<string>)
    ensures r != []
  {
    [Part("issuer", m.issuer)] + PartIf("email", PrintedEmail(m)) + PartIf("org", m.org) + PartIf("group", m.group)
  }

  function PrintMatcher(m: Matcher): string {
    Join(Parts(m), ',')
  }

  method Print(m: Matcher) returns (text: string)
    ensures text == PrintMatcher(m)
  {
    var parts := [Part("issuer", m.issuer)];
    if m.email.Some? {
      parts := parts + [Part("email", PrintPattern(m.email.value))];
    }
    if m.org.Some? {
      parts := parts + [Part("org", m.org.value)];
    }
    if m.group.Some? {
      parts := parts + [Part("group", m.group.value)];
    }
    assert parts == Parts(m);
    text := Join(parts, ',');
  }
}
