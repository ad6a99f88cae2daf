/** Choosing the motivational quote shown on load: a random valid entry of the
    quote service's answer with its author cleaned up, or, when the request or the
    answer is unusable, a random one of three built-in quotes. The network answer
    and `Math.random()` are parameters. */
module Quotes {
  import opened Wrappers
  import opened Seqs

  /** A property of a decoded JSON value as the script sees it: missing (or null),
      a string, or some other value, which is truthy or not. */
  datatype Field = Absent | Text(s: string) | Other(truthy: bool)

  /** An element of the decoded array: an object with `text` and `author`
      properties, or a value that is not an object (null, a number, ...). */
  datatype Entry = NonObject | Object(text: Field, author: Field)

  /** The body of the response: not decodable as JSON, decoded but not an array,
      or an array of entries. */
  datatype Payload = Unparsable | NotAnArray | Entries(items: seq<Entry>)

  /** The outcome of the request: it failed outright, or a response arrived with
      an `ok` flag (status 200-299) and a body. */
  datatype Response = NetworkError | Received(ok: bool, payload: Payload)

  datatype Quote = Quote(text: string, author: string)

  const FallbackQuotes: seq<Quote> := [
    Quote("The secret of getting ahead is getting started.", "Mark Twain"),
    Quote("You don't have to be great to start, but you have to start to be great.", "Zig Ziglar"),
    Quote("Small daily improvements lead to stunning results.", "Robin Sharma")
  ]

  /** The suffix the quote service appends to author names. */
  const ServiceSuffix: string := ", type.fit"

  function Truthy(f: Field): bool
  {
    match f
    case Absent => false
    case Text(s) => s != []
    case Other(t) => t
  }

  /** The filter test: the entry has a `text` that is a non-empty string. */
  predicate IsValidEntry(e: Entry)
  {
    e.Object? && Truthy(e.text) && e.text.Text?
  }

  function ValidQuotes(items: seq<Entry>): (valid: seq<Entry>)
    ensures |valid| <= |items|
    ensures forall i :: 0 <= i < |valid| ==> IsValidEntry(valid[i])
  {
    Filter(items, IsValidEntry)
  }

  /** The valid entries are exactly the entries with non-empty string text, each
      with all its copies, in the order of the answer. */
  lemma ValidQuotesSpec(items: seq<Entry>)
    ensures forall e :: e in ValidQuotes(items) <==> e in items && e.Object? && e.text.Text? && e.text.s != []
    ensures forall e :: IsValidEntry(e) ==> multiset(ValidQuotes(items))[e] == multiset(items)[e]
    ensures IsSubsequence(ValidQuotes(items), items)
  {
    forall e ensures e in ValidQuotes(items) <==> e in items && IsValidEntry(e) {
      FilterMembership(items, IsValidEntry, e);
    }
    forall e | IsValidEntry(e) ensures multiset(ValidQuotes(items))[e] == multiset(items)[e] {
      FilterMultiplicity(items, IsValidEntry, e);
    }
    FilterIsSubsequence(items, IsValidEntry);
  }

  /** `Math.floor(random * n)` for a `random` drawn from [0, 1): a position in a list of `n`. */
  function PickIndex(n: nat, random: real): (i: nat)
    requires n > 0 && 0.0 <= random < 1.0
    ensures i < n
  {
    ProductBelow(n, random);
    (random * n as real).Floor
  }

  lemma ProductBelow(n: nat, random: real)
    requires n > 0 && 0.0 <= random < 1.0
    ensures 0.0 <= random * n as real < n as real
  {
  }

  predicate OccursAt(s: string, pat: string, j: int)
  {
    0 <= j && j + |pat| <= |s| && s[j..j + |pat|] == pat
  }

  /** The first position at or after `from` where `pat` occurs in `s`. */
  function FindFrom(s: string, pat: string, from: nat): (r: Option<nat>)
    requires from <= |s|
    ensures r.Some? ==> from <= r.value && OccursAt(s, pat, r.value)
    ensures r.Some? ==> forall j :: from <= j < r.value ==> !OccursAt(s, pat, j)
    ensures r.None? ==> forall j :: from <= j ==> !OccursAt(s, pat, j)
    decreases |s| - from
  {
    if from + |pat| > |s| then None
    else if s[from..from + |pat|] == pat then Some(from)
    else FindFrom(s, pat, from + 1)
  }

  /** `String.prototype.replace` with a string pattern: only the first occurrence
      of `pat` is replaced by `rep`. */
  function ReplaceFirst(s: string, pat: string, rep: string): (r: string)
    ensures (forall j :: !OccursAt(s, pat, j)) ==> r == s
    ensures forall i :: (OccursAt(s, pat, i) && forall j :: 0 <= j < i ==> !OccursAt(s, pat, j))
                          ==> r == s[..i] + rep + s[i + |pat|..]
  {
    match FindFrom(s, pat, 0)
    case None => s
    case Some(i) => s[..i] + rep + s[i + |pat|..]
  }

  /** The author shown with an answer's quote: "Unknown" when the property is
      falsy; a string with the first ", type.fit" removed; `None` when it is a
      truthy non-string, on which calling `replace` throws. */
  function CleanAuthor(author: Field): (r: Option<string>)
    ensures !Truthy(author) ==> r == Some("Unknown")
    ensures author.Text? && author.s != [] ==> r == Some(ReplaceFirst(author.s, ServiceSuffix, []))
    ensures r.None? <==> author.Other? && author.truthy
  {
    if !Truthy(author) then Some("Unknown")
    else if author.Text? then Some(ReplaceFirst(author.s, ServiceSuffix, []))
    else None
  }

  /** The service's usual author format loses its suffix. */
  lemma CleanServiceAuthor()
    ensures CleanAuthor(Text("Lao Tzu, type.fit")) == Some("Lao Tzu")
  {
    var s := "Lao Tzu, type.fit";
    assert s[7..17] == ServiceSuffix;
    assert OccursAt(s, ServiceSuffix, 7);
    forall j | 0 <= j < 7 ensures !OccursAt(s, ServiceSuffix, j) {
      assert s[j..j + 10][0] == s[j] != ServiceSuffix[0];
    }
    assert s[..7] + [] + s[17..] == "Lao Tzu";
  }

  /** The valid entry `validQuotes[Math.floor(Math.random() * validQuotes.length)]`. */
  function Chosen(items: seq<Entry>, random: real): (e: Entry)
    requires ValidQuotes(items) != [] && 0.0 <= random < 1.0
    ensures e in ValidQuotes(items) && IsValidEntry(e)
  {
    ValidQuotes(items)[PickIndex(|ValidQuotes(items)|, random)]
  }

  /** The `try` block threw, or would throw, for this answer. */
  predicate ApiFails(response: Response, random: real)
    requires 0.0 <= random < 1.0
  {
    || response.NetworkError? || !response.ok || !response.payload.Entries?
    || ValidQuotes(response.payload.items) == []
    || (var author := Chosen(response.payload.items, random).author; author.Other? && author.truthy)
  }

  /** The quote taken from the answer, or `None` when the `try` block throws: the
      request failed, the status is not ok, the body is not a JSON array, no entry
      is valid, or the chosen entry's author cannot be cleaned. */
  function ApiQuote(response: Response, random: real): (r: Option<Quote>)
    requires 0.0 <= random < 1.0
    ensures r.None? <==> ApiFails(response, random)
    ensures r.Some? ==> var e := Chosen(response.payload.items, random);
                        r.value == Quote(e.text.s, CleanAuthor(e.author).value)
  {
    match response
    case NetworkError => None
    case Received(ok, payload) =>
      if !ok then None
      else match payload
        case Unparsable => None
        case NotAnArray => None
        case Entries(items) =>
          var valid := ValidQuotes(items);
          if |valid| == 0 then None
          else
            var chosen := Chosen(items, random);
            match CleanAuthor(chosen.author)
            case None => None
            case Some(author) => Some(Quote(chosen.text.s, author))
  }

  /** The quote displayed. `apiRandom` and `fallbackRandom` are the two values
      `Math.random()` may return, for the answer and for the fallback list. */
  function FetchQuote(response: Response, apiRandom: real, fallbackRandom: real): (q: Quote)
    requires 0.0 <= apiRandom < 1.0 && 0.0 <= fallbackRandom < 1.0
    ensures q in FallbackQuotes
         || (response.Received? && response.ok && response.payload.Entries?
             && exists e :: e in ValidQuotes(response.payload.items)
                          && q.text == e.text.s && CleanAuthor(e.author) == Some(q.author))
    ensures (|| response.NetworkError? || !response.ok || !response.payload.Entries?
             || ValidQuotes(response.payload.items) == [])
            ==> q in FallbackQuotes
    ensures ApiFails(response, apiRandom) ==> q in FallbackQuotes
  {
    match ApiQuote(response, apiRandom)
    case Some(q) => q
    case None => FallbackQuotes[PickIndex(|FallbackQuotes|, fallbackRandom)]
  }

  /** When the answer has valid entries and the chosen one has a usable author,
      the displayed quote is that entry's text with its cleaned author. */
  lemma FetchQuoteUsesAnswer(items: seq<Entry>, apiRandom: real, fallbackRandom: real)
    requires 0.0 <= apiRandom < 1.0 && 0.0 <= fallbackRandom < 1.0
    requires ValidQuotes(items) != []
    requires !(Chosen(items, apiRandom).author.Other? && Chosen(items, apiRandom).author.truthy)
    ensures var chosen := Chosen(items, apiRandom);
            FetchQuote(Received(true, Entries(items)), apiRandom, fallbackRandom)
            == Quote(chosen.text.s, CleanAuthor(chosen.author).value)
  {
  }

  /** When the chosen entry's author is a truthy non-string, `replace` throws inside
      the `try`, and the `catch` shows a built-in quote. */
  lemma FetchQuoteAuthorThrows(items: seq<Entry>, apiRandom: real, fallbackRandom: real)
    requires 0.0 <= apiRandom < 1.0 && 0.0 <= fallbackRandom < 1.0
    requires ValidQuotes(items) != []
    requires Chosen(items, apiRandom).author.Other? && Chosen(items, apiRandom).author.truthy
    ensures FetchQuote(Received(true, Entries(items)), apiRandom, fallbackRandom) in FallbackQuotes
  {
  }

  /** The three built-in quotes are distinct, so a failed fetch shows one of exactly three. */
  lemma ThreeFallbacks()
    ensures |FallbackQuotes| == 3
    ensures FallbackQuotes[0] != FallbackQuotes[1] && FallbackQuotes[1] != FallbackQuotes[2]
            && FallbackQuotes[0] != FallbackQuotes[2]
  {
  }
}
