# Hub Fatture: verified models

Hub Fatture imports orders from Shopify and eBay, issues Italian electronic invoices for them and
reconciles those with the provider Aruba. This project models the algorithms and protocols at
its centre in Dafny and proves what they are relied on for:

- **Signed invoices.** The BER reader (ITU-T X.690, clauses 8.1.3, 8.1.5 and 8.7) and the validator of
  CMS SignedData messages (RFC 5652, sections 3, 5.1 and 5.2) accept exactly the encodings of a
  grammar of trees, return the payload that was wrapped, and read nothing past what they return.
- **Untrusted XML.** The tag scanner accepts exactly the texts of a grammar of marks, defined by their
  characters, whose tags are those of an element forest within its bounds.
- **Matching.** The cohort resolver pairs invoices with orders in one way whatever order they are
  listed in, exactly when no two numbers tie; the pruned search for deposits and balances misses
  nothing; what is selected from it is beyond doubt and independent of listing order. Statuses converge.
- **Reconciliation.** The table of common street tokens holds a longest common subsequence; the search
  for an order number that skips overlaps is complete exactly for numbers with safe overlaps, and the
  bare one exactly for numbers that do not introduce themselves, so for all of digits and hyphens.
- **Snapshot alignment.** Which source changes are accepted without a person, by paths, keys and
  statuses, and as relations with laws.
- **Fiscal documents.** Generator and readers agree on type, number, date and every amount, and both
  readers are characterised on every file; customer identity depends only on the set of tax identifiers.
- **Protocols.** Inventory pages are counted once for each window and ordinal; coalesced refreshes serve every request.

Where the source changes things step by step, a method or a class does the same and is proved
equal to a function; the results are lemmas about that function, against definitions that do not
mention it. What is accepted, chosen or printed is said apart from the predicates, comparators and
constants of the code as well: formats by characters and bits, bounds and codes by their numbers
and letters. Exceptions are `None` or an error value.

## Where the code and its promises part

For each of these a lemma gives an input that shows it, or the whole family of them, and another
says exactly when the code keeps the promise:

- Cohorts: invoices numbered 1 and 01 pass the check of distinct numbers but tie in the sort, so
  their matches depend on listing order (`CohortTies`).
- Order references: the search misses 1-1 in ebayx1-1-1 (`OrderReferences`), and the bare one misses
  ordine ordine in ordine ordine ordine (`BareCompleteness`).
- Refund replays: an undefined field added to the raw evidence between two accepted changes makes
  them one change that is not accepted (`RefundAlignment`).
- Amounts: a negative amount with odd cents prints as in -1.-1 (`Money`); no caller prints one.
- Fiscal numbers: a label of a year before 10 is read by nothing (`FiscalNumbers`), and a document
  number 0 is read by one reader only (`FiscalRoundTrip`).
- Page commits: a replay changes nothing within one window, but one that arrives after the window has
  moved can be stored and counted again (`InventoryPages`).
- Statuses: a run that mixes UNKNOWN with statuses in progress only, or has two terminal values, ends by
  the order of its observations (`RemoteStatus`).

## Files

| part | files |
|---|---|
| shared | Options, Integers, Whitespace, Text, Numerals, Sorting |
| signed invoices | Ber, BerEncoding, SignedData, Envelope, FiscalPayload |
| untrusted XML | XmlScanner, XmlElements, XmlGrammar, XmlPrinting |
| matching | NumericText, Cohorts, CohortOrder, CohortTies, SplitInvoices, SplitSelection, SplitOrder, RemoteStatus |
| reconciliation | StreetTokens, OrderReferences, BareReferences, BareCompleteness |
| alignment | SnapshotJson, Alignments, RefundAlignment, AlignmentRules |
| fiscal documents | Money, FiscalNumbers, FiscalXml, FiscalDocuments, FiscalInputs, FiscalReaders, FiscalRoundTrip, TaxIdentity, TaxRules |
| protocols | ControlsRefresh, InventoryPages |

`dafny verify dfyconfig.toml` checks them all.

## Model

| member | source | states |
|---|---|---|
| `Ber.DerElement` | src/aruba.ts:103-139 | The reader as written, a cursor moving over children and a loop over length octets, computes `ElementAt`, the reading that all results below are about; every refusal is a `None`. |
| `Ber.ReadDefiniteLength` | src/aruba.ts:123-134 | The loop over at most four length octets accumulates their big-endian value, and refuses a long form below 128 or past the limit. |
| `Ber.ReadingIsLocal` | src/aruba.ts:103-139 | An element that is read is read again, the same, from every buffer that agrees on its octets, under every limit that holds it and at every smaller depth. |
| `Ber.ReadingIsDeterminate` | src/aruba.ts:103-139 | Two successful readings at one offset, whatever their limits and depths, are the same element. |
| `Ber.ReadingIsLimitExact` | src/aruba.ts:103-139 | Once an element is read at some limit, every limit that reaches its end gives the same element and every smaller limit fails. |
| `BerEncoding.IsIdentifier` | src/aruba.ts:106-108 | The octets of a class, a constructed bit and a number below 31 (X.690, 8.1.2) are exactly those that the reader does not take for a high tag number and whose constructed bit it sees. |
| `BerEncoding.DigitsRead` | src/aruba.ts:126-129 | Reading the length octets printed for a length gives the length back. |
| `BerEncoding.DigitsWritten` | src/aruba.ts:126-129 | Every run of length octets is the printing of the length it is read as. |
| `BerEncoding.EncodingIsRead` | src/aruba.ts:103-139 | The encoding of any well-formed tree, definite or indefinite at each level and with any length form the reader knows, is read as the element it was printed for, within 64 levels and 20,000 elements. |
| `BerEncoding.ForestIsClosed` | src/aruba.ts:111-122 | The loop over an indefinite-length element stops exactly at the end-of-contents octets that close its children. |
| `BerEncoding.EncodingsArePrefixFree` | src/aruba.ts:103-139 | No encoding is a proper prefix of another: two trees whose encodings start the same buffer are one tree. |
| `BerEncoding.ForestsArePrefixFree` | src/aruba.ts:144-154 | Nor do two sequences of trees with the same octets differ, so the children of an element are determined by its content. |
| `SignedData.ReadChildren` | src/aruba.ts:144-154 | The loop over a content range returns the elements that tile it without gap or overlap; its final comparison of offset and end never fails, because no element is read past the range. |
| `SignedData.WalkElements` | src/aruba.ts:208-221 | The counting walk, one counter shared by all levels, computes `Visit`. |
| `SignedData.ReadSignedDataContent` | src/aruba.ts:155-162 | The first descent accepts a pair of the signed-data type and an explicit content, and nothing else. |
| `SignedData.ReadSignedDataFields` | src/aruba.ts:163-177 | The second descent accepts one SEQUENCE of at least four fields whose first three and last tags are those of SignedData. |
| `SignedData.ReadEncapsulatedContent` | src/aruba.ts:178-207 | The third descent returns a detached content as such, and an attached one as its reassembled, non-empty octets. |
| `SignedData.ValidateSignedDataDer` | src/aruba.ts:141-223 | The whole validator computes `SignedContent`, in the order of its checks. |
| `Envelope.OctetsAreSegments` | src/aruba.ts:198-205 | The octets reassembled from a tree's offsets are the concatenation of its segments, at any nesting. |
| `Envelope.ForestIsVisited` | src/aruba.ts:208-221 | The counting walk over the encoding of a forest counts its elements exactly. |
| `Envelope.ForestOf` | src/aruba.ts:208-221 | Whatever the counting walk accepts is the encoding of a forest of exactly the counted size, no deeper than the walk allows. |
| `Envelope.MessageMatches` | src/aruba.ts:141-223 | On the encoding of a tree within the bounds the validator returns what the shape of the tree says: an attached payload, a detached one, or a refusal. |
| `Envelope.SubidentifierReads` | src/aruba.ts:98-101 | An arc is printed in digits of seven bits that read as it, no more than it takes, and only the last without bit 8 (X.690, 8.19.2). |
| `Envelope.TypesAreWritten` | src/aruba.ts:98-101 | The octets compared with are the encodings of the object identifiers 1.2.840.113549.1.7.2 and .1, printed arc by arc (X.690, 8.19). |
| `Envelope.MessageOf` | src/aruba.ts:141-223 | Every accepted message is the encoding of a signed message within 64 levels and 20,000 elements below the root. |
| `Envelope.AcceptsExactlyMessages` | src/aruba.ts:141-223 | The validator accepts exactly the encodings of signed messages of at most 64 levels and 20,000 elements below the root, and returns their content; message and encoding are defined by the bits of X.690 and the arcs of the two types. |
| `Envelope.BoundsAreExact` | src/aruba.ts:208-221 | For one tree the two bounds are exact: it is accepted if and only if it has the shape of a signed message and lies within them. |
| `Envelope.WrappedPayloadIsReturned` | src/aruba.ts:141-223 | However a payload is cut into nested segments and however the lengths around it are written, unwrapping the wrapped payload gives it back. |
| `FiscalPayload.SignedCopyIsThePlainFile` | src/aruba.ts:225-230 | A signed copy has the same fiscal payload as the plain file, or is refused together with it. |
| `FiscalPayload.PlainFileIsPayloadIff` | src/aruba.ts:323-330 | A plain file is its own payload if and only if it is no longer than 4,900,000 octets, holds no NUL and no DOCTYPE or ENTITY declaration in any mixture of cases, is a document of the grammar below, and parses. |
| `FiscalPayload.SignedPayloadIsEnveloped` | src/aruba.ts:225-230 | A signed file yields a payload if and only if it is the encoding of a signed message that carries it and the payload passes as a plain file. |
| `XmlScanner.ScanTagEnd` | src/aruba.ts:283-299 | The loop that skips quoted values finds the bracket that ends a tag, and fails at a bracket that opens another or at the end of the text. |
| `XmlScanner.ScanTag` | src/aruba.ts:272-317 | One tag is read as an opening, closing or self-closing tag with its name, or refused. |
| `XmlScanner.ScanMarkup` | src/aruba.ts:248-270 | One turn skips a comment, a CDATA section or an instruction, refuses a declaration, and otherwise reads a tag. |
| `XmlScanner.Account` | src/aruba.ts:301-316 | A closing tag pops an element of its own name; other tags count against 20,000 elements, and an opening one against 64 open ones. |
| `XmlScanner.ValidateXmlComplexity` | src/aruba.ts:243-321 | The scanner accepts a text exactly when its tag tokens can be fed to the stack to the end, leaving it empty after at least one element. |
| `XmlElements.ForestIsFed` | src/aruba.ts:301-316 | Feeding the tags of an element forest returns to the stack it started from if and only if both bounds hold. |
| `XmlElements.ForestOf` | src/aruba.ts:243-321 | Whatever tag tokens the stack accepts are those of an element forest. |
| `XmlElements.AcceptsExactlyForests` | src/aruba.ts:243-321 | A text is accepted if and only if its tag tokens are those of a forest of 1 to 20,000 elements with never more than 64 open at once: a name-matched Dyck word within the bounds. |
| `XmlGrammar.TokensAreTags` | src/aruba.ts:243-321 | A text is read as some list of tags if and only if it is written by marks with those tags: characters, skipped parts, and tags of a name, plain and quoted parts and a closing bracket, each defined by its characters alone. |
| `XmlGrammar.AcceptsExactlyDocuments` | src/aruba.ts:243-321 | The scanner accepts exactly the texts that marks of an element forest write, of 1 to 20,000 elements with at most 64 open at once. A name ends at space, tab, carriage return, line feed, slash or bracket, and a tag closes itself if a slash stands last before white space and the bracket. |
| `XmlPrinting.ItemsAreMarks` | src/aruba.ts:243-321 | A printed document, with quoted attributes, text, comments, CDATA and instructions between its elements, is written by marks with exactly the tags of its elements. |
| `XmlPrinting.PrintedDocumentIsAccepted` | src/aruba.ts:243-321 | A printed document is accepted if and only if it has 1 to 20,000 elements, never more than 64 of them open. A name in a closing tag must be followed by XML white space or the bracket, since only those end a name. |
| `NumericText.NumeralsTie` | src/aruba-inbound.ts:321-332 | Numerals tie only when they are one number, and without leading zeros only when they are one text. |
| `NumericText.ComparesAsApart` | src/aruba-inbound.ts:321-332 | The smaller of two numerals comes first, by value; other texts come as the collation has them. |
| `Cohorts.GroupEntries` | src/aruba-inbound.ts:342-353 | The Map of groups holds, for each key in the order of first appearance, the entries with that key in their order. |
| `Cohorts.SelectAutomaticAmbiguousInvoiceMatches` | src/aruba-inbound.ts:339-419 | The resolver as written, a Map loop and then a loop over its groups, computes `Resolve`. |
| `CohortOrder.JoinIsInjective` | src/aruba-inbound.ts:389-402 | Lists of numerals joined by colons are equal only if the lists are, so comparing joined keys compares candidate sets. |
| `CohortOrder.GroupIsOrderFree` | src/aruba-inbound.ts:356-417 | Two listings of one group, of its entries or of any entry's candidates, resolve to the same matches; a cohort only has to have plain numeric ids, and if it is resolved, numerically distinct fiscal numbers, agreeing candidate data, and collations that order what occurs. |
| `CohortOrder.ResolutionIsOrderFree` | src/aruba-inbound.ts:339-419 | Listing the entries, or the candidates of any entry, in another order changes no match of the whole run, if its groups are as above; what is asked of numbers, candidate data and collations is asked of resolved cohorts only. |
| `CohortOrder.NumeralsResolveOrderFree` | src/aruba-inbound.ts:339-419 | So it is where the fiscal numbers of each resolved cohort are digits of different value, whatever the collation makes of digits. |
| `CohortOrder.CohortResolvesIff` | src/aruba-inbound.ts:356-403 | A group of two or more is resolved if and only if no invoice names a compatible order, the fiscal numbers differ as texts, and each invoice has as many candidate orders as there are invoices, all near in date, with different ids, and the same for all invoices. |
| `CohortOrder.SingleResolvesIff` | src/aruba-inbound.ts:359-379 | An invoice on its own is matched if and only if it names no compatible order and exactly one of its candidate orders was placed on its day, which then is its match. |
| `CohortOrder.MatchIsMeant` | src/aruba-inbound.ts:339-419 | Every match of a whole run pairs an invoice with a candidate of its own that is compatible, a single order, of the same total, recipient and tax identifier, and not named by the invoice. |
| `CohortOrder.CohortIsBijection` | src/aruba-inbound.ts:380-416 | A resolved cohort of two or more pairs all its invoices with all the candidates they have in common, each exactly once. |
| `CohortOrder.CohortIsMonotone` | src/aruba-inbound.ts:404-416 | In a resolved cohort, with or without ties, an invoice of a smaller number never gets a candidate of a later date, nor on one date one of a greater display number, nor with equal display numbers one of a greater id; smaller means by value for numerals, and the ids are plain numerals. The collations order the numbers and dates that occur. |
| `CohortOrder.NumbersFollowDates` | src/aruba-inbound.ts:404-416 | With fiscal numbers of digits, whatever the collation makes of digits: the smaller the value of the number, the earlier or equal the date. |
| `CohortTies.SwapChangesMatches` | src/aruba-inbound.ts:404-416 | Swapping two neighbouring invoices whose numbers tie changes the set of matches. |
| `CohortTies.OrderFreeIffDistinct` | src/aruba-inbound.ts:404-416 | A cohort that resolves does so in one way for every listing of its invoices if and only if no two of them tie by number; the source checks only that their texts differ. |
| `CohortTies.ListingDecides` | src/aruba-inbound.ts:404-416 | A cohort of the numbers 1 and 01 resolves, passing the check of distinct texts, and gives other matches when it is listed the other way round. |
| `SplitInvoices.SplitInvoiceSubsets` | src/aruba-inbound.ts:811-823 | The recursive visitor pushes the subsets that `Search` lists, in that order. |
| `SplitInvoices.SubsetSearch.Visit` | src/aruba-inbound.ts:813-820 | One call of the visitor appends its subsets to those already pushed and changes nothing else. |
| `SplitInvoices.SearchIsExact` | src/aruba-inbound.ts:811-823 | For positive amounts the pruned search returns every increasing choice of two or three parts that sums to the target exactly once, and nothing else: cutting at a sum that reaches the target loses no solution. |
| `SplitSelection.EligibleIffQualifies` | src/aruba-inbound.ts:837-847 | A part is eligible if and only if it is an invoice, dated from the order's day to 62 days after, over a positive amount below the order's, and identified as the customer's: by provider and fiscal code or recipient, city and country if it is official, and by provider and recipient otherwise. |
| `SplitSelection.EligibleAreQualifying` | src/aruba-inbound.ts:837-847 | The parts looked at for an order are those, in listing order. |
| `SplitSelection.EligibleAmounts` | src/aruba-inbound.ts:837-847 | Eligibility makes every amount positive, which the pruned search relies on. |
| `SplitSelection.CountProposals` | src/aruba-inbound.ts:854-861 | The two Maps hold the number of proposals of each order and of occurrences of each document among all proposals. |
| `SplitSelection.SelectSplitInvoiceMatches` | src/aruba-inbound.ts:831-890 | The selection as written computes `Select`. |
| `SplitSelection.SelectionsAreDisjoint` | src/aruba-inbound.ts:862-872 | No order and no document occurs in two selections. |
| `SplitSelection.DocumentsAreDistinct` | src/aruba-inbound.ts:862-872 | No document occurs twice in one selection. |
| `SplitSelection.SelectionIsExact` | src/aruba-inbound.ts:831-890 | Every selection comes from two or three parts that qualify as above for a single order with at most twelve such parts, and that add up to the order's amount exactly; no other exact set of qualifying parts is for that order or takes one of its documents; and it is complete if and only if all parts are official, of which one then declares itself an instalment. |
| `SplitSelection.CertainProposalIsSelected` | src/aruba-inbound.ts:831-890 | Conversely, every exact set of qualifying parts that is its order's sole proposal, shares no document with another and declares itself once all its XML is there, is selected. |
| `SplitSelection.SelectionIsListedInOrder` | src/aruba-inbound.ts:876-885 | The documents of a selection are listed by date, and within a date by the value of numerals or by collation, ties aside; the collation has to order the numbers that occur. |
| `SplitOrder.SearchFindsHits` | src/aruba-inbound.ts:811-823 | What the pruned search chooses are, as a bag, exactly the ways to add two or three parts that hit the target, with no pruning in their definition. |
| `SplitOrder.ShapesAgree` | src/aruba-inbound.ts:831-853 | Listing orders or parts in another order proposes the same sets of parts for the same orders, each as often. |
| `SplitOrder.SelectionForgetsOrder` | src/aruba-inbound.ts:831-890 | So the same documents are selected for the same orders and with the same completeness, whatever the listing. |
| `SplitOrder.UntiedSelectionForgetsOrder` | src/aruba-inbound.ts:831-890 | And in the same order within each selection, where no two parts share a date and tie by number. |
| `RemoteStatus.TerminalIsFinal` | src/aruba-inbound.ts:139-155 | Once a terminal status is stored no run of observations changes it. |
| `RemoteStatus.TransitionIs` | src/aruba-inbound.ts:139-155 | Against a final status another final one or UNKNOWN is a conflict, a lower status in progress is stale, and whatever else is observed is stored. |
| `RemoteStatus.RunEnds` | src/aruba-inbound.ts:135-155 | Every run ends with its first terminal status, and without one with the furthest status since the last UNKNOWN. |
| `RemoteStatus.SettledRunEndsHighest` | src/aruba-inbound.ts:135-155 | A run with at most one terminal value and without UNKNOWN, or settled by a terminal status, ends with the maximum of SDI_PROCESSING, SUBMITTED and terminal. |
| `RemoteStatus.SettledRunsAgree` | src/aruba-inbound.ts:135-155 | Settled runs over the same statuses end alike, whatever the order and the repetitions. |
| `RemoteStatus.OrderFreeIffSettled` | src/aruba-inbound.ts:135-155 | The end of a run is independent of the order of its observations if and only if the run is settled. |
| `RemoteStatus.SubmissionMirrorsRemote` | src/aruba-submission-state.ts:16-25 | A submission run and the remote run on the same observations stay in step from any start, and report a conflict, a stale status or progress together. |
| `RemoteStatus.SubmissionTransitionIs` | src/aruba-submission-state.ts:16-25 | For a submission: the same status is repeated, a final one against another final one or UNKNOWN is a conflict, a lower one but UNKNOWN is stale, and everything else advances it. |
| `StreetTokens.OrderedCommonTokenCount` | src/historical-order-reconciliation.ts:298-311 | The table filled in nested loops ends with the value of `Cell` in its last corner. |
| `StreetTokens.SomeCommonHasLength` | src/historical-order-reconciliation.ts:298-311 | Some common subsequence has the length that is returned. |
| `StreetTokens.NoCommonIsLonger` | src/historical-order-reconciliation.ts:304-307 | And none is longer, although a match takes the diagonal without comparing. |
| `StreetTokens.CellIsLongest` | src/historical-order-reconciliation.ts:298-311 | The count is the length of a longest common subsequence, and the only number that is. |
| `OrderReferences.SearchReference` | src/historical-order-reconciliation.ts:55-64 | The loop that goes on behind each occurrence computes `SkippingSearch` whenever it ends. |
| `OrderReferences.EmptyNumberNeverEnds` | src/historical-order-reconciliation.ts:55-64 | It does not end for an empty number that is refused at the first position: the position never moves. |
| `OrderReferences.SearchIsComplete` | src/historical-order-reconciliation.ts:55-64 | Where no copy that overlaps an earlier one counts, skipping finds an occurrence that counts whenever there is one. |
| `OrderReferences.OccursIsMention` | src/historical-order-reconciliation.ts:54-63 | An occurrence counts if and only if the text is some part, the number, and another part, of which the first does not end and the last does not begin with a letter or digit. |
| `OrderReferences.ReferencesAreFound` | src/historical-order-reconciliation.ts:48-66 | If before each overlapping copy of the number stands a letter or digit, the search finds a reference exactly when the text contains the provider and the number stands free somewhere in it. |
| `OrderReferences.CompleteIffSafe` | src/historical-order-reconciliation.ts:48-66 | The first search agrees with the plain definition on every text if and only if every overlap of the number is safe. |
| `OrderReferences.MissedReference` | src/historical-order-reconciliation.ts:48-66 | The number 1-1 stands by itself at the end of ebayx1-1-1 and is not found there. |
| `BareReferences.IntroducesIsPattern` | src/historical-order-reconciliation.ts:79 | The test of the words before a number, read from their end, accepts exactly the texts of the regular expression. |
| `BareReferences.IntroducedIsSaid` | src/historical-order-reconciliation.ts:75-80 | What is looked at are the last 32 characters before the number, and they introduce it if and only if they are cut up as the regular expression says. |
| `BareReferences.OccursIsBareMention` | src/historical-order-reconciliation.ts:68-86 | An occurrence counts if and only if the text is a part that introduces the number, the number standing free, and a rest. |
| `Whitespace.SpacesAreListed` | src/historical-order-reconciliation.ts:79 | White space in expressions is exactly WhiteSpace and LineTerminator of ECMAScript. |
| `BareReferences.BareReferencesAreFound` | src/historical-order-reconciliation.ts:68-86 | The bare search finds a reference exactly when some introduced occurrence exists, as long as no text that ends in an overlapped part of the number introduces a number; the rows below show that this condition is exact and can be checked. |
| `BareReferences.SafeBareReferencesAreFound` | src/historical-order-reconciliation.ts:68-86 | So it is for numbers with safe overlaps, for which the first search is complete. |
| `BareCompleteness.SafeIffNotItself` | src/historical-order-reconciliation.ts:68-86 | That condition holds if and only if no start of the number, behind one of the 13 proper starts of ordine numero, introduces the copy of the number that overlaps there. |
| `BareCompleteness.BareCompleteIff` | src/historical-order-reconciliation.ts:68-86 | For every number the bare search agrees with the plain definition on every text if and only if the number does not introduce itself in this way. |
| `BareCompleteness.LetterlessIffTrail` | src/historical-order-reconciliation.ts:68-86 | A number without the letters of ordine and numero introduces itself if and only if it repeats a start that reads as white space, or as a dot and white space, short enough for the 32 characters looked at. |
| `BareCompleteness.PlainNumbersAreFound` | src/historical-order-reconciliation.ts:68-86 | So the bare search is complete for every such number that starts with neither a dot nor white space, 1-1 included. |
| `BareCompleteness.WordsAreMissed` | src/historical-order-reconciliation.ts:68-86 | The number ordine ordine introduces itself: it is introduced in ordine ordine ordine, and missed. |
| `SnapshotJson.ErasureReads` | src/order-source-alignment.ts:290-301 | An erased snapshot reads as the original along every path through no e-mail key, and nothing along any other. |
| `SnapshotJson.ErasureIsAgreement` | src/order-source-alignment.ts:290-301 | Two snapshots have equal erasures if and only if they read the same along every path that avoids the e-mail keys. |
| `SnapshotJson.ErasureIsIdempotent` | src/order-source-alignment.ts:290-301 | Erasing twice is erasing once. |
| `SnapshotJson.NormalizationFixesSerializable` | src/order-source-alignment.ts:378-389 | Normalising changes nothing that JSON text can hold. |
| `SnapshotJson.NormalizationSerializes` | src/order-source-alignment.ts:378-389 | And what it returns is such a value. |
| `SnapshotJson.NormalizationIsAgreement` | src/order-source-alignment.ts:378-389 | Two values are equal when normalised if and only if they read the same along every path, an undefined field being absent and an undefined item null. |
| `Alignments.EmailOnlyChangesNothingElse` | src/order-source-alignment.ts:308-318 | A change is an e-mail-only change if and only if the e-mail changes between eBay snapshots that read the same along every path outside the e-mail keys, stable defaults filled in. |
| `Alignments.FulfillmentIsStrictOrder` | src/order-source-alignment.ts:607-624 | Fulfilment-only changes are a strict partial order: irreflexive and transitive. |
| `Alignments.FulfillmentChainsAreShort` | src/order-source-alignment.ts:607-624 | And there are never more than three of them in a row. |
| `AlignmentRules.EmailOnlyIff` | src/order-source-alignment.ts:266-318 | An e-mail-only change, by paths: both snapshots are of eBay, the profile's or else the customer's e-mail differs, and everything read along a path through no email and no reviewFingerprint is the same. |
| `AlignmentRules.FulfillmentIff` | src/order-source-alignment.ts:587-624 | A fulfilment-only change, by statuses: both snapshots are of one provider, the status moves on along UNFULFILLED, PARTIAL, FULFILLED, from outside of these too, and nothing changes but the five keys that go with it. A status named as a method that every object has never moves. |
| `AlignmentRules.TextsOfPlainValues` | src/order-source-alignment.ts:618-619 | A status reads as its text, whole numbers in decimal, and the other values as their names. |
| `AlignmentRules.TextsAreJoined` | src/order-source-alignment.ts:618-619 | A status that is a list reads as its texts between commas. |
| `RefundAlignment.IsEbayRefundMapperOnlyChange` | src/order-source-alignment.ts:546-586 | The mapping loop that sets a flag on the way computes the relation. |
| `AlignmentRules.CompletesIff` | src/order-source-alignment.ts:556-577 | A refund is completed if and only if AMBIGUOUS without amount becomes COMPLETED with a price of two decimals, under the same identifier and with identical raw evidence and time. |
| `AlignmentRules.RefundChangeIff` | src/order-source-alignment.ts:532-586 | The whole relation, by keys: both snapshots are of eBay and of one source, with as many refunds, of which some are completed and the others alike as JSON text, and nothing else changes but the three keys that go with it. |
| `RefundAlignment.ChangeByItems` | src/order-source-alignment.ts:532-586 | The comparison of the two rebuilt snapshots holds if and only if all other evidence is equal and every refund is either completed or reads the same, and some refund is completed. |
| `RefundAlignment.ChangeResolvesAmbiguity` | src/order-source-alignment.ts:546-586 | Each such change leaves strictly fewer AMBIGUOUS refunds, leaves every other refund equal, and is never reversible. |
| `RefundAlignment.ChangesCompose` | src/order-source-alignment.ts:546-586 | Two changes in a row are one change if and only if the raw evidence of every refund completed on the way is the same at both ends. |
| `RefundAlignment.StoredChangesCompose` | src/order-source-alignment.ts:546-586 | On snapshots as stored, which hold nothing undefined, the relation is transitive. |
| `RefundAlignment.UndefinedEvidenceBreaksChain` | src/order-source-alignment.ts:569-584 | In general it is not: an undefined field added to the raw evidence is dropped by each comparison, but seen when the ends are compared. |
| `Money.DecimalIsRead` | src/orders.ts:266-275 | Exactly the texts of an optional sign, digits and an optional fraction of one or two digits and further zeros, of at most 2,147,483,647 cents either way, are read, each as the cents it denotes. |
| `Money.AmountIsRead` | src/documents.ts:741-743 | Reading a printed amount gives it back, from 0 to 2,147,483,647 cents. |
| `Money.AmountRoundTripsIff` | src/documents.ts:741-743 | Over all integers, printing and reading returns an amount if and only if it is within range and is not negative or is a whole number of units. |
| `Money.OddNegativeIsUnreadable` | src/documents.ts:741-743 | A negative amount with odd cents is printed with a second sign and refused by the reader. |
| `FiscalNumbers.EnvelopeMatchIsExact` | src/documents.ts:278 | The envelope pattern matches exactly the texts made of a series, a gap, a number and a year, and its groups are unique. |
| `FiscalNumbers.AcceptedIsEnvelope` | src/documents.ts:228 | Whatever the stricter pattern accepts, the envelope pattern splits the same way. |
| `FiscalNumbers.YearEndsIn` | src/fiscal-number.ts:1-3 | The last two characters of a printed year are a given pair of digits if and only if the year is 10 or later and has that value modulo 100. |
| `FiscalNumbers.LabelIs` | src/fiscal-number.ts:1-3 | A label is the series, a blank, the number in digits, padded to four, a slash, and the last two characters of the year. |
| `FiscalNumbers.LabelIsAccepted` | src/fiscal-number.ts:1-3 | From the year 10 on the label of the FPR series is read with the digits and the year ending it was printed with. |
| `FiscalNumbers.EarlyLabelIsRefused` | src/fiscal-number.ts:1-3 | Before, it ends in a single digit and neither pattern reads it. |
| `FiscalInputs.ValidNumberIff` | src/documents.ts:276-285 | The envelope reader takes exactly the numbers of its pattern that are positive, at most 2^53 - 1, and end with the document's year: in two digits from the year 10 on, or in four. |
| `FiscalXml.SoleField` | src/documents.ts:573-578 | A child with a name of its own is read as the field of that name. |
| `FiscalXml.ArrayField` | src/documents.ts:305-307 | Children of one name are read as the array of them, even when there is only one. |
| `FiscalReaders.ValueIsText` | src/documents.ts:573-595 | A value is read if and only if the element, or the text beside its attributes, is not blank; then it is that text without the white space at its ends. |
| `FiscalReaders.ArrayIs` | src/documents.ts:305-307 | A list is read if and only if the field is an array of records, or a single record. |
| `FiscalReaders.RecordIs` | src/documents.ts:573-578 | A record is read if and only if the field is one. |
| `FiscalDocuments.SumLines` | src/documents.ts:822 | The fold over the lines is the sum of quantity times unit amount. |
| `FiscalInputs.DateIsDay` | src/orders.ts:91-93 | The dates taken are those of the Gregorian calendar, years 1 to 9999, and each is numbered in its own year. |
| `FiscalInputs.AcceptableIff` | src/documents.ts:806-822 | The generator takes exactly 1 to 999 lines of at least one piece, amounts and total within 32 bits, a day of the calendar in the numbering's year, one of three methods of payment, and a trimmed profile. |
| `FiscalDocuments.GenerateFatturaXml` | src/documents.ts:806-968 | The generator, appending nodes line by line, refuses an input or numbering that is not valid, and otherwise builds `Document`. |
| `FiscalRoundTrip.GeneratedIsAccepted` | src/documents.ts:213-254 | A generated file is accepted if and only if its year is 10 or later, as the one document with the type (TD01 for an invoice, TD04 for a credit note), date, number, year, total and parties it was generated from. |
| `FiscalRoundTrip.GeneratedIsEnveloped` | src/documents.ts:263-303 | The envelope reader finds its type, TD01 or TD04, and number if and only if that is positive, at most 2^53 - 1 and of a year from 10 on; otherwise it refuses the file or reports an unknown number, as asked. |
| `FiscalRoundTrip.TransmissionIsRead` | src/documents.ts:844-854 | The transmission is of format FPR12 and counts on by the number alone, or by the year's last two digits and the number in eight. |
| `FiscalRoundTrip.ReadersAgree` | src/documents.ts:213-303 | On every body that the stricter reader takes, the envelope reader reports the same type, year, number and date, unless the date is impossible or the number unusable; its total is the stated one, or the sum of the lines where the element is absent or empty, and a blank element, unstated for the other, is refused. |
| `FiscalRoundTrip.FilesAgree` | src/documents.ts:213-303 | And so on every file that the stricter reader takes, body by body. |
| `FiscalReaders.AcceptedFileIff` | src/documents.ts:213-254 | On any file: it is accepted as a list of documents if and only if it is of format FPR12, has a transmitter and a supplier, and each body, in order, is a document of type TD01 or TD04 in EUR, numbered FPR with digits, a slash and two digits that are its date's year modulo 100, between these parties, its total absent or readable. |
| `FiscalReaders.EnvelopeBodyIff` | src/documents.ts:272-302 | On any body: one of another type is passed over; one of type TD01 or TD04 has an envelope if and only if it is in EUR, of a day of the calendar and its year, with a usable number or an unknown one where that is allowed, and with the stated total or else that of its lines. |
| `FiscalReaders.EnvelopesIff` | src/documents.ts:263-303 | On any file: it yields envelopes if and only if it is of format FPR12 and each body has them, in their order. |
| `FiscalReaders.LineTotalIff` | src/documents.ts:331-337 | The total of the lines is there if and only if the total of each line reads, and is their sum. |
| `FiscalRoundTrip.LinesAddUp` | src/documents.ts:331-337 | The sum of the line totals of a generated body is its total. |
| `FiscalRoundTrip.LinesAreRead` | src/documents.ts:938-948 | Every line is read back in its place with its number, quantity, unit of measure, unit amount, rate and nature, and the product of quantity and amount as its total. |
| `FiscalRoundTrip.SummaryIsRead` | src/documents.ts:339-353 | The tax summary of a generated body is usable if and only if the total is positive, and then it is of nature N5 and the reference of the margin scheme. |
| `FiscalRoundTrip.TaxSummaryIsUnanimous` | src/documents.ts:339-353 | On any body: there is a tax summary if and only if every amount reads, some summary has a base or a tax, and all of those name the one nature and the one reference that are reported. |
| `FiscalRoundTrip.PaymentIsRead` | src/documents.ts:955-965 | The payment of a generated body is complete (TP02), by the method of the input, and of the whole total. |
| `FiscalRoundTrip.AmountsAgree` | src/documents.ts:822-965 | Stated total, sum of the lines, taxable base and payment of a generated body all decode to the sum of quantity times unit amount. |
| `TaxIdentity.CollectUnique` | src/orders.ts:492-500 | The Map loop computes `Unique`, an existing key keeping its place. |
| `TaxIdentity.CollectCanonical` | src/orders.ts:491-504 | And the canonical list is its values, sorted by the collated text. |
| `TaxRules.ItalianIdentifierIs` | src/orders.ts:450-469 | An identifier is an Italian one if and only if its customer writes in the Italian format and it is 16 capitals and digits, or 11 digits with or without the country, by its type. |
| `TaxRules.CanonicalIs` | src/orders.ts:471-489 | Its canonical form keeps type, source and raw value, drops the country of an Italian identifier, and of a VAT number the letters of the country it is of. |
| `TaxIdentity.UniqueIsLeast` | src/orders.ts:492-500 | Whatever the order of the input, what is kept is the least identifier of each key, and one for each key that occurs. |
| `TaxRules.KeptAreLeast` | src/orders.ts:492-500 | Two identifiers are the same if they are of one type, value and country, none being the empty one; of those that are the same the least is kept, only one of each, and one of every one. |
| `TaxIdentity.CanonicalListForgetsOrder` | src/orders.ts:491-504 | The canonical list depends only on which identifiers there are, not on their order or repetition. |
| `TaxIdentity.FindCustomerIdentity` | src/orders.ts:584-645 | The second sort and the loop with early return compute `CustomerIdentity`. |
| `TaxIdentity.IdentityForgetsOrder` | src/orders.ts:584-645 | So the match key, confidence, review flag and primary identifier do not depend on order or repetition either. |
| `TaxIdentity.IdentityIsFirstUsable` | src/orders.ts:584-645 | The customer is identified by the first, by rank of type and then by text, of the usable least identifiers of each key, and by profile or order if and only if none of those is usable. |
| `TaxRules.UsableIff` | src/orders.ts:594-600 | An identifier counts if and only if it has a country or is an Italian one, and is written in the format its customer needs or, abroad, has two characters. |
| `TaxRules.RankedBeforeIff` | src/orders.ts:585-593 | Identifiers are tried by type, for a business VAT number first and for others the fiscal code, and by text within a type. |
| `TaxRules.ReviewOfTaxId` | src/orders.ts:601-613 | A customer known by identifier needs no review if and only if name and address are complete and the identifier is a fiscal code of an Italian private customer, a VAT number of an Italian business, or any of a foreign customer. |
| `TaxRules.ReviewOfProfile` | src/orders.ts:617-645 | Without one, complete name and address and an e-mail identify by profile, reviewed unless the customer is foreign; everything else is known by its order only, and always reviewed. |
| `ControlsRefresh.Worker.ScheduleOperationalControlsRefresh` | src/worker.ts:51-63 | A request is noted, and starts a refresh if there is no promise. |
| `ControlsRefresh.Worker.AfterRefresh` | src/worker.ts:45-58 | What follows the awaited refresh: another one if a request was noted, the end, or the recording of a failure. |
| `ControlsRefresh.Worker.Finally` | src/worker.ts:59-62 | The promise is cleared, and a noted request starts a new one. |
| `ControlsRefresh.NoRequestIsLost` | src/worker.ts:45-63 | Over every interleaving of requests, successes and failures: refreshes never overlap, every request is followed by a start no earlier than it or is noted for the next, and no refresh starts without a request made since the start before. |
| `ControlsRefresh.RefreshGoesOn` | src/worker.ts:45-63 | Whatever requests and looks come in between: a failure is recorded next, then the promise settles; a success with a request noted is followed by the end of another refresh, and without one the promise settles. |
| `ControlsRefresh.Worker.WaitForOperationalControlsRefresh` | src/worker.ts:65-70 | The wait returns without a promise and awaits the present one otherwise; once that is settled it looks again. |
| `ControlsRefresh.WaitResumesAfterFinally` | src/worker.ts:59-70 | A wait goes on if and only if the finally handler of the promise it awaits has run, even if that has started another refresh. |
| `ControlsRefresh.NotedIsServed` | src/worker.ts:45-63 | A noted request is followed by a start within three, two or one further events of the refresh, by its phase, whatever requests are mixed in. |
| `ControlsRefresh.EveryRequestIsServed` | src/worker.ts:45-63 | So after three events of the refresh every request made before them is followed by a start, even while requests keep coming. |
| `ControlsRefresh.WaitReturnsQuiet` | src/worker.ts:65-70 | Whatever happened between its looks, at the step in which the wait returns nothing is noted, nothing runs, and every request was followed by a start. |
| `ControlsRefresh.RequestsStop` | src/worker.ts:45-70 | Once requests stop at most one more refresh starts, and only if one is noted, and refresh and wait together take at most nine steps. |
| `ControlsRefresh.OnlyReturnedIsStuck` | src/worker.ts:45-70 | A state from which nothing but a request is possible is one without a promise whose wait has returned. |
| `ControlsRefresh.WaitReturns` | src/worker.ts:65-70 | So on every run that goes on while it can, without requests, the wait returns. |
| `InventoryPages.CountDocuments` | src/db/aruba-api-canonical-page.server.ts:31-38 | The Map counts each id as often as it is listed, its keys in the order of first appearance. |
| `InventoryPages.EvidenceIsSurplus` | src/db/aruba-api-canonical-page.server.ts:39-48 | Evidence beyond one piece for each repeated id is one piece for each document whose id was seen before. |
| `InventoryPages.Run.CommitArubaApiInventoryPage` | src/db/aruba-api-canonical-page.server.ts:10-156 | The transaction answers and changes the run exactly as `Answer` and `Commit` say; it changes nothing unless it answers that the page is new. |
| `InventoryPages.AnswerIs` | src/db/aruba-api-canonical-page.server.ts:10-123 | A commit is refused as invalid, by a run that takes none, repeated or in conflict where the window holds the page with the same or another digest, blocked unless all its documents, files and evidence are staged, and new otherwise, in this order. |
| `InventoryPages.Run.AdvanceWindow` | src/db/aruba-api-inbound.server.ts:643-664 | The window moves on by at most 48 hours, cut at the end of the run's range, and not past it. |
| `InventoryPages.PagesAreCountedOnce` | src/db/aruba-api-canonical-page.server.ts:124-154 | Over every run of commits, replays, refusals and window moves the counters are the count and sums over the stored pages, no key is stored twice, no page lies ahead of the window, and the resume page follows the last page stored in it. |
| `InventoryPages.StoredPageSettles` | src/db/aruba-api-canonical-page.server.ts:67-79 | A stored page settles every later commit to its key: the same digest is answered as repeated and another one is a conflict, and nothing changes either way. |
| `InventoryPages.OnlyAcceptedMatter` | src/db/aruba-api-canonical-page.server.ts:67-154 | The final state is that of the accepted events alone, and the stored pages are those of the accepted commits in their order. |
| `InventoryPages.TotalsAreAccepted` | src/db/aruba-api-canonical-page.server.ts:140-154 | What the counters gain over a run is what its accepted commits bring, each once. |
| `InventoryPages.ReplayCountsTwiceIff` | src/db/aruba-api-canonical-page.server.ts:67-79 | The same request meeting the same staged observations counts a second time if and only if the run goes on in a window that has no page of that ordinal yet; in the window of its first answer it never does. |
| `InventoryPages.ReplayAfterAdvance` | src/db/aruba-api-canonical-page.server.ts:80-123 | And it can: after the window has moved it is stored again, since the staged observations are asked for the run and the ordinal but not for the window. |
| `InventoryPages.WindowsTile` | src/db/aruba-api-inbound.server.ts:643-664 | The windows of a run follow one another without gap or overlap up to the current one, each 48 hours long unless the end of the range cuts it. |

## Left out

- OrderReferences.SearchReference: leaves out the empty number refused at the first position, on which the loop of the source does not end (EmptyNumberNeverEnds).
- FiscalXml.SoleField: that the parser's object form has a field for each child of a name of its own is the model's assumption about xmlbuilder2, and elements that mix text with children are left out.
- FiscalXml.ArrayField: that repeated names become an array in document order is the model's assumption about xmlbuilder2.
- FiscalDocuments.GenerateFatturaXml: the tree leaves out recipient, addresses, causale, related invoice and due date, which are text that no amount or number depends on.
- SplitOrder.SelectionForgetsOrder: says nothing of how documents are listed within a selection, since parts of one date whose numbers tie are listed as they come.
- CohortOrder.ResolutionIsOrderFree: does not model toSorted under a comparator that is not a total preorder, because the language leaves its result open then.
- TaxIdentity.IdentityForgetsOrder: assumes, as the source does, that comparing JSON texts by code units and by locale both order the identifiers at hand totally; texts are not modelled.
- CohortOrder.CohortIsBijection: the pairing is one to one within a cohort, and not across cohorts, where one order may be a candidate of several.
- FiscalRoundTrip.GeneratedIsAccepted: serialisation to text and back is taken to be the identity on the tree, and texts that the schemas trim or upper-case are taken as already so.
- RefundAlignment.ChangesCompose: the strict comparison of `completedAt` treats objects of two snapshots as different objects, because snapshots are parsed separately.
- ControlsRefresh.WaitReturns: time is counted in steps between awaits; how long a refresh takes, and whether it ever settles, is up to the database.
- InventoryPages.PagesAreCountedOnce: PostgreSQL's 32-bit overflow of the counters, row locks, advisory locks and lease times are not modelled; a transaction is one step.
- The whole of `app/`, scripts, configuration, authentication and HTTP handling: user interface and plumbing.
- The staged-observation query of page commits: an oracle that answers four counts.
- Signals of a candidate, names, transliteration, addresses, Unicode normalisation, case folding and collation: parameters, with the laws stated where they are needed.
- `fulfillmentStatus` and `provider` texts that come from objects with their own `toString`.
- XSD validation, `xmllint`, XML parsing by xmlbuilder2 beyond the complexity check, and UTF-8 decoding: parameters or trees.
- Recipient, address, causale, related-invoice and due-date fields of the FatturaPA tree, and the payment method reader: text without arithmetic.
- Hashing: digests are opaque values.
- The text of a customer's match key: its parts are kept apart instead of being joined.
- Number precision beyond 2^53, `Number()` of texts that are not digits, and fractional JSON numbers: numbers are exact integers, and a year that is not digits is not a year.
- UTF-16 code units: a string is a sequence of characters.
- The XML tree of the generator is built from sequences, not from linked nodes, so aliasing of builder nodes is not captured.
- Small decision tables (trigger status, dashboard states, batch summaries): they would only add easy members.
- Other e-mail, phone, name, address and payment-timestamp alignments of the same file: variations of the relations modelled.
