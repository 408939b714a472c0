/** The read-only lookup context every classification and decomposition
    call receives: the country-name set, the legal-suffix list, the two
    ordered regex tables and the two library parsers. In the source these
    are module globals built once at import time; here they are a value
    passed in. */
module Reference {
  import opened Text

  /** A compiled regex searched over a string (`re.search(p, s) is not None`),
      or a library parser reporting success. */
  type Matcher = string -> bool

  datatype Option<T> = None | Some(value: T)

  datatype Context = Context(
    /** Lower-cased country names. */
    countries: set<string>,
    /** Lower-cased legal-entity suffixes, in the (process-dependent) order
        `list(set)` happens to give them. */
    legalSuffixes: seq<string>,
    /** The date regexes, tried in order, case-insensitively. */
    datePatterns: seq<Matcher>,
    /** The phone regexes, tried in order. */
    phonePatterns: seq<Matcher>,
    /** `dateutil.parser.parse(s, fuzzy=False)` returns without raising. */
    parsesAsDate: Matcher,
    /** `phonenumbers.parse(s, "US")` returns without raising and
        `phonenumbers.is_possible_number` holds of its result. */
    possiblePhone: Matcher
  )

  /** The base legal suffixes, before any supplementary file is merged in. */
  const BaseLegalSuffixes: seq<string> :=
    ["pvt ltd", "ltd", "inc", "gmbh", "co kg", "plc", "llc", "corp",
     "private limited", "group", "holdings"]

  /** What the suffix list is assumed to satisfy: each suffix is non-empty,
      lower-case, starts with a word character and does not end in
      whitespace (the loader strips and lower-cases every line). */
  predicate ValidSuffix(x: string) {
    x != [] && Lower(x) == x && IsWordChar(x[0]) && !IsSpace(x[|x| - 1])
  }

  predicate ValidSuffixes(xs: seq<string>) {
    forall i :: 0 <= i < |xs| ==> ValidSuffix(xs[i])
  }

  /** Every date and phone regex contains `\d`, so none can match a
      string without a digit. The digit here is ASCII (`ContainsDigit`);
      the regex class `\d` also matches other Unicode digits, which this
      premise does not cover. */
  ghost predicate NeedsDigit(patterns: seq<Matcher>) {
    forall i, s :: 0 <= i < |patterns| && patterns[i](s) ==> ContainsDigit(s)
  }

  ghost predicate Valid(ctx: Context) {
    ValidSuffixes(ctx.legalSuffixes) && NeedsDigit(ctx.datePatterns) && NeedsDigit(ctx.phonePatterns)
  }
}
