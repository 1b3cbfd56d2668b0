# GPU stock alert job, modelled in Dafny

The job watches a retailer's listing for one graphics card and texts an alert
to a list of subscribers when the card becomes available. One run of `main`
does three things, in this order:

1. It reads inbound SMS and updates the subscriber list.
2. It loads the product page (up to three attempts) and scans the product
   cards for the target card.
3. It sends the alert when the card is available, was not available on the
   previous run, and someone is subscribed.

Everything the job remembers between runs lives in one JSON state file.

The model is imperative, as the source is. The files are:

- `state_store.dfy`
  - The state file is an `Option<FileRecord>` held by a `Disk` object. `None` stands for a file that is absent or cannot be parsed.
  - `Disk` also keeps a ghost log of every object written.
  - `StateManager` works on the shared `Disk`. Its methods mirror src/state_manager.py: reload, edit the copy, write back.
- `prober.dfy`: the newer availability probe (`StockChecker.check_stock` of the `nvidia_gpu_stock_checker` package).
  - Inputs: whether the browser started, and the outcome of each page load (`Timeout`, `OtherError`, or `Page` with its cards).
  - The methods are proved against the specification function `CheckStockSpec`.
- `legacy_prober.dfy`: the older probe of src/stock_checker.py.
  - It reads the file once, when it is created.
  - It writes a two-key object itself.
- `messaging.dfy`: the inbound listing, the cursor test that ends processing, and the alert loop. Both notifier variants share these.
- `notifier.dfy`: the `nvidia_gpu_stock_checker` notifier.
  - Every sender is subscribed.
  - A sender is removed again when the confirmation reports Twilio error 21610 (the recipient has opted out).
- `keyword_notifier.dfy`: the notifier of src/sms_notifier.py.
  - Message bodies are START/STOP commands.
  - Every processed message gets one reply.
- `run.dfy`: `main`.
  - The inbox runs before the probe.
  - The alert decision.
  - One whole run on a shared state file.
- `text.dfy`: the ASCII string operations used above: `strip`, `upper`, `lower`, `in`, and `<=` on strings. Dafny's own `<=` on sequences is the prefix test, so `<=` is defined separately as lexicographic order.
- `config.dfy` and `wrappers.dfy`: the constants, and an `Option` type.

I/O is replaced by parameters:

- **Clock:** the "one hour ago" and "now" timestamps are strings (`utcHourAgo`, `nowIso`). `time.time()` is an integer `clock`.
- **Message listing:** `Option<seq<Message>>`, newest first. `None` means `messages.list` raised.
- **Send outcomes:** oracles indexed by the send's position in its loop.
  - `deliver(k)` for the k-th alert.
  - `confirm(j)` for the fetched confirmation to the j-th processed message: an error code, or `Failed`.
  - `replyOk(j)` for the j-th reply.
- **Twilio client:** whether it was configured is the flag `hasClient`.

`main.py` uses the `nvidia_gpu_stock_checker` classes. The `src` classes are modelled as well, but nothing in `main` calls them.

## Model

| member | source | states |
|---|---|---|
| Text.IsSpace | nvidia_gpu_stock_checker/stock_checker.py:78 | the ASCII characters Python's `str.isspace()` accepts, the ones `strip()` cuts; case mapping keeps them, see `CaseKeepsSpace` and `StripLower` |
| Text.Strip | nvidia_gpu_stock_checker/stock_checker.py:78 | `strip()` is the piece `s[i..j]` of its input with only whitespace outside it, and the piece neither starts nor ends with whitespace |
| Text.Lower | nvidia_gpu_stock_checker/stock_checker.py:84-86 | `.lower()` on ASCII letters, also at src/stock_checker.py:83; see `LowerUpper`, `StripLower` and `Prober.PurchasableCaseBlind` |
| Text.Upper | src/sms_notifier.py:109 | `.upper()` on ASCII letters; see `UpperLower`, `UpperIdempotent`, `StripUpper` and `KeywordNotifier.ClassifyCaseBlind` |
| Text.UpperLower | src/sms_notifier.py:109 | `s.lower().upper() == s.upper()` |
| Text.LowerUpper | nvidia_gpu_stock_checker/stock_checker.py:84-86 | `s.upper().lower() == s.lower()` |
| Text.UpperIdempotent | src/sms_notifier.py:109 | upper-casing twice is upper-casing once |
| Text.StripLower | nvidia_gpu_stock_checker/stock_checker.py:84-86 | `s.strip().lower() == s.lower().strip()`: case mapping never touches whitespace |
| Text.StripUpper | src/sms_notifier.py:109 | `s.strip().upper() == s.upper().strip()` |
| Text.Contains | src/sms_notifier.py:112-118 | Python's `sub in s`, also the title and button tests at nvidia_gpu_stock_checker/stock_checker.py:80 and 88-89; characterised by `ContainsAt`, `ContainsFits` and `ContainsStripped` |
| Text.ContainsStripped | nvidia_gpu_stock_checker/stock_checker.py:78-90 | a text that does not start or end with whitespace occurs in `s.strip()` iff it occurs in `s` |
| Text.ContainsAt | nvidia_gpu_stock_checker/stock_checker.py:80 | the recursive `sub in s` test holds iff `sub` occurs at some position of `s` |
| Text.ContainsFits | src/sms_notifier.py:112 | a keyword longer than the text never occurs in it |
| Text.StripUnspaced | src/sms_notifier.py:109 | a text with no whitespace at either end is its own `strip()` |
| Text.LexLe | src/sms_notifier.py:105 | Python's `a <= b` on strings: code-point lexicographic order, a proper prefix first; its order laws are the four lemmas below |
| Text.LexLeReflexive | src/sms_notifier.py:105 | string `<=` is reflexive |
| Text.LexLeTotal | src/sms_notifier.py:105 | any two strings are comparable with `<=` |
| Text.LexLeAntisymmetric | src/sms_notifier.py:105 | `a <= b` and `b <= a` only for equal strings |
| Text.LexLeTransitive | src/sms_notifier.py:105 | string `<=` is transitive |
| StateStore.Load | src/state_manager.py:23-42 | an absent or unreadable file loads as the default record; otherwise each key present is kept and each missing key takes its default |
| StateStore.Save | src/state_manager.py:44-51 | the object `save_state` writes for a state, with every key; see `SaveThenLoad` and `LoadThenSave` |
| StateStore.SaveThenLoad | src/state_manager.py:44-51 | what `save_state` writes has every key, and loading it gives back the record saved |
| StateStore.LoadThenSave | src/state_manager.py:31-36 | a file with every key is loaded unchanged, so saving it rewrites the same object |
| StateStore.Cursor | src/state_manager.py:111-117 | the stored cursor when there is one, else the hour-ago time followed by `+00:00`; never missing |
| StateStore.WithSubscriber | src/state_manager.py:74-85 | the list after `add_subscriber`: the number appended when absent; its properties are the next lemma |
| StateStore.WithSubscriberProperties | src/state_manager.py:74-85 | adding makes exactly the given number a new member, keeps a duplicate-free list duplicate-free, and adding twice is adding once |
| StateStore.RemoveFirst | src/state_manager.py:87-98 | the list after `remove_subscriber`, `list.remove`; its properties are the next three lemmas |
| StateStore.RemoveFirstSplits | src/state_manager.py:91-92 | `list.remove` cuts out the first occurrence only; an absent number leaves the list as it is |
| StateStore.RemoveFirstMultiset | src/state_manager.py:92 | removal takes exactly one copy of the number out of the multiset of subscribers |
| StateStore.RemoveFirstNoDuplicates | src/state_manager.py:87-98 | on a duplicate-free list, removal keeps it duplicate-free, makes the number absent and keeps every other number |
| StateStore.Stamped | src/state_manager.py:53-65 | the records written by a run of `update_stock_state` calls: the k-th is the state with the k-th availability; see `StampedSnoc` and `Prober.StockChecker.CheckStock` |
| StateStore.Disk.Write | src/state_manager.py:44-51 | a write replaces the whole file and is appended to the write log |
| StateStore.StateManager.LoadState | src/state_manager.py:23-42 | returns `Load` of the current file |
| StateStore.StateManager.SaveState | src/state_manager.py:44-51 | writes the record; `load_state` then returns it |
| StateStore.StateManager.UpdateStockState | src/state_manager.py:53-65 | sets `available` and nothing else, writes once, and reports a change in either direction |
| StateStore.StateManager.GetStockState | src/state_manager.py:67-72 | the stored availability |
| StateStore.StateManager.AddSubscriber | src/state_manager.py:74-85 | true iff the number was absent; then it is appended and the file written once; otherwise the file is untouched |
| StateStore.StateManager.RemoveSubscriber | src/state_manager.py:87-98 | true iff the number was present; then its first occurrence is removed and the file written once; otherwise the file is untouched |
| StateStore.StateManager.GetSubscribers | src/state_manager.py:100-103 | the stored subscriber list |
| StateStore.StateManager.UpdateLastMessageDate | src/state_manager.py:105-109 | overwrites the cursor and nothing else |
| StateStore.StateManager.GetLastMessageDate | src/state_manager.py:111-117 | returns `Cursor` of the current record |
| Prober.Matches | nvidia_gpu_stock_checker/stock_checker.py:70-80 | a card whose stripped title contains the product name; proved equal to the raw search by `MatchesByTitle` |
| Prober.MatchesByTitle | nvidia_gpu_stock_checker/stock_checker.py:72-80 | a card matches iff it has a title and the product name occurs in it, case-sensitively; the strip does not matter |
| Prober.Inspected | nvidia_gpu_stock_checker/stock_checker.py:82-97 | a matching card with an `.item-operate` element, whose availability is written; see `ScanFromWrites` and `StockChecker.InspectCard` |
| Prober.Offered | nvidia_gpu_stock_checker/stock_checker.py:82-101 | an inspected card whose button text is purchasable, which ends the scan; see `ScanFromAvailable` |
| Prober.Purchasable | nvidia_gpu_stock_checker/stock_checker.py:82-90 | the stripped, lower-cased button text offers "add to cart" and not "out of stock"; characterised by the next lemmas |
| Prober.PurchasableByText | nvidia_gpu_stock_checker/stock_checker.py:82-90 | purchasable iff the lower-cased text contains "add to cart" and not "out of stock", whatever whitespace surrounds it |
| Prober.PurchasableCaseBlind | nvidia_gpu_stock_checker/stock_checker.py:84-90 | two button texts that agree once lower-cased are both purchasable or both not |
| Prober.PurchasableAnyCase | nvidia_gpu_stock_checker/stock_checker.py:84-90 | upper-casing a button text does not change the verdict ("ADD TO CART" counts) |
| Prober.ScanFrom | nvidia_gpu_stock_checker/stock_checker.py:70-108 | the card scan from one card on: stops at the first offered card with `(True, not previous)`, writes `False` for each inspected card before it, ends with `(False, False)` and a final `False`; proved by `ScanFromAvailable` and `ScanFromWrites` |
| Prober.ProbeFrom | nvidia_gpu_stock_checker/stock_checker.py:58-130 | the retry loop: a timeout before the last attempt retries, the last timeout or another error gives `(False, previous)`, a page is scanned; proved by `ProbeFromDecisive` |
| Prober.CheckStockSpec | nvidia_gpu_stock_checker/stock_checker.py:21-138 | the whole call, a browser that fails to start giving `(False, previous)`; its outcomes are `CheckStockFacts` |
| Prober.Decisive | nvidia_gpu_stock_checker/stock_checker.py:58-130 | the attempt that ends the retry loop: every earlier attempt timed out, and it is the last attempt or did not time out |
| Prober.ScanFromAvailable | nvidia_gpu_stock_checker/stock_checker.py:70-101 | a page gives availability iff some card on it matches the title, has an operate element, and offers "add to cart" without "out of stock" |
| Prober.ScanFromWrites | nvidia_gpu_stock_checker/stock_checker.py:96-108 | a scan reports a change only when the product became available; every write but the last is `False`; the last write is the result |
| Prober.ProbeFromDecisive | nvidia_gpu_stock_checker/stock_checker.py:58-130 | the outcome of the retry loop depends only on its decisive attempt |
| Prober.CheckStockFacts | nvidia_gpu_stock_checker/stock_checker.py:21-138 | available iff the browser started and the decisive page offers the product, then changed is `not previous`; a page without an offer gives `(False, False)`; a final timeout, another error or a failed browser gives `(False, previous)`; the last write is the availability returned |
| Prober.StockChecker.CheckStock | nvidia_gpu_stock_checker/stock_checker.py:21-138 | returns `CheckStockSpec` of the stored availability; the writes are those of `update_stock_state` for the spec's write sequence; a page is requested at most three times and again only after a timeout |
| Prober.StockChecker.ScanProducts | nvidia_gpu_stock_checker/stock_checker.py:70-108 | the card scan returns `ScanPage` and writes its write sequence in order; only availability changes |
| Prober.StockChecker.InspectCard | nvidia_gpu_stock_checker/stock_checker.py:71-101 | a card without a title or without a match is skipped; a matching card with an operate element has its availability written; the change flag is `available and not previous` |
| LegacyProber.PreviousRecord | src/stock_checker.py:21-33 | the stored object exactly as parsed, or `{"available": False, "last_checked": None}`, with no keys filled in |
| LegacyProber.PreviousAvailable | src/stock_checker.py:90 | `previous_state.get("available", False)`; see `PreviousAgreesWithLoad` |
| LegacyProber.Stamp | src/stock_checker.py:35-43 | the two-key object a legacy save writes; see `LegacyStamped` and `StampDropsSubscribers` |
| LegacyProber.PreviousAgreesWithLoad | src/stock_checker.py:90 | the legacy checker reads the same previous availability as `StateManager` would |
| LegacyProber.LegacyStamped | src/stock_checker.py:35-43 | the k-th record written carries the k-th availability and the clock reading |
| LegacyProber.StampDropsSubscribers | src/stock_checker.py:35-43 | after a legacy save the file has only `available` and `last_checked`, so a `StateManager` then sees no subscribers and no cursor |
| LegacyProber.LegacyResult | src/stock_checker.py:45-121 | the legacy result `(available, available and not previous)`; its outcomes are the next lemma |
| LegacyProber.LegacyResultFacts | src/stock_checker.py:45-121 | available iff the decisive page offers the product, then changed is `not previous`; every other path gives `(False, False)`; the last write is the result |
| LegacyProber.LegacyStockChecker.constructor | src/stock_checker.py:15-18 | `previous_state` is read from the file once, at construction |
| LegacyProber.LegacyStockChecker.LoadPreviousState | src/stock_checker.py:21-33 | returns `PreviousRecord` of the current file |
| LegacyProber.LegacyStockChecker.SaveCurrentState | src/stock_checker.py:35-43 | overwrites the whole file with the given object stamped with the clock |
| LegacyProber.LegacyStockChecker.CheckStock | src/stock_checker.py:45-121 | returns `LegacyResult` against the stale `previous_state`, which it never refreshes; writes the spec's write sequence as stamped objects |
| LegacyProber.LegacyStockChecker.ScanProducts | src/stock_checker.py:71-101 | the card scan against `previous_state`, with its writes in order |
| LegacyProber.LegacyStockChecker.InspectCard | src/stock_checker.py:72-97 | a matching card with an operate element is written with its availability; the change flag is `available and not previous` |
| Messaging.AlreadySeen | nvidia_gpu_stock_checker/sms_notifier.py:123-128 | the stop test: a cursor is set and the message's date is `<=` it |
| Messaging.NewCount | nvidia_gpu_stock_checker/sms_notifier.py:121-130 | `processed_count` is the length of the longest prefix of the listing whose dates are after the cursor (an empty cursor lets everything through) |
| Messaging.NewCountSorted | nvidia_gpu_stock_checker/sms_notifier.py:122-128 | on a newest-first listing, a message is processed iff its date is after the cursor |
| Messaging.NewCountUnsorted | nvidia_gpu_stock_checker/sms_notifier.py:122-128 | the stop rule depends on the order: an old message at the head hides a new one behind it |
| Messaging.CursorAdvance | nvidia_gpu_stock_checker/sms_notifier.py:165-169 | when something was processed, the new cursor is strictly after the old one; when nothing was, it is not after it |
| Messaging.RerunProcessesNothing | src/sms_notifier.py:127-129 | with the cursor at the head's date, the same listing is not processed again |
| Messaging.Successes | nvidia_gpu_stock_checker/sms_notifier.py:66-89 | `successful_sends` after the first `n` sends, at most `n`; see `SuccessesCount` and `Broadcast` |
| Messaging.SuccessesCount | nvidia_gpu_stock_checker/sms_notifier.py:66-89 | the count of successful sends is positive iff some send succeeded, and equals the number of sends iff all did |
| Messaging.Broadcast | nvidia_gpu_stock_checker/sms_notifier.py:66-84 | one send per subscriber in list order; a failure does not stop the loop; the count of successes is returned |
| Notifier.OptedOut | nvidia_gpu_stock_checker/sms_notifier.py:149 | the fetched confirmation reports error 21610; see `EnrollStepMembership` and `EnrolledMembership` |
| Notifier.EnrollStep | nvidia_gpu_stock_checker/sms_notifier.py:130-159 | one processed message: the sender is added, then removed when the confirmation reports 21610; proved by `EnrollStepMembership` |
| Notifier.Enrolled | nvidia_gpu_stock_checker/sms_notifier.py:121-159 | the first `n` messages processed in listing order; proved by `EnrolledKeeps` and `EnrolledMembership` |
| Notifier.Inbox | nvidia_gpu_stock_checker/sms_notifier.py:99-176 | the whole inbox step on the state; its outcomes are `InboxFacts` |
| Notifier.EnrolledKeeps | nvidia_gpu_stock_checker/sms_notifier.py:121-163 | processing changes only the subscriber list, and keeps a duplicate-free list duplicate-free |
| Notifier.EnrollStepMembership | nvidia_gpu_stock_checker/sms_notifier.py:133-153 | one message changes only its sender's membership: subscribed unless the confirmation reported error 21610 |
| Notifier.EnrolledStep | nvidia_gpu_stock_checker/sms_notifier.py:130-163 | the n-th processed message changes only its sender's membership |
| Notifier.EnrolledMembership | nvidia_gpu_stock_checker/sms_notifier.py:121-163 | a number that sent nothing keeps its membership; for one that did, the confirmation to its last processed message decides |
| Notifier.InboxFacts | nvidia_gpu_stock_checker/sms_notifier.py:99-176 | the inbox step never changes availability; without a client or with a failed listing nothing changes; otherwise the cursor becomes now (empty listing) or the newest message's date |
| Notifier.SmsNotifier.SendNotification | nvidia_gpu_stock_checker/sms_notifier.py:54-93 | false without a client or subscribers; otherwise one send per subscriber, true iff one succeeded; the list is not changed |
| Notifier.SmsNotifier.GetSubscribers | nvidia_gpu_stock_checker/sms_notifier.py:95-97 | the stored subscriber list |
| Notifier.SmsNotifier.CheckForSubscriptionMessages | nvidia_gpu_stock_checker/sms_notifier.py:99-176 | the new state is `Inbox` of the old; the file is untouched without a client or listing; one confirmation per processed message, to its sender |
| Notifier.SmsNotifier.ProcessNew | nvidia_gpu_stock_checker/sms_notifier.py:121-163 | processes exactly the new prefix in listing order, subscribing each sender and removing it on an opt-out |
| KeywordNotifier.Classify | src/sms_notifier.py:109-118 | the command in a body: START searched first in the stripped, upper-cased text, then STOP; characterised by the next three lemmas |
| KeywordNotifier.ClassifyByKeywords | src/sms_notifier.py:109-118 | for every body: START anywhere in the upper-cased text subscribes, even beside STOP; STOP without START unsubscribes; otherwise neither; stripping makes no difference |
| KeywordNotifier.ClassifyCaseBlind | src/sms_notifier.py:109-118 | two bodies that differ only in letter case get the same command |
| KeywordNotifier.ClassifyAnyCase | src/sms_notifier.py:109-118 | lower-casing or upper-casing a body does not change its command |
| KeywordNotifier.ClassifyLowerCase | src/sms_notifier.py:109-118 | example: "stop" unsubscribes |
| KeywordNotifier.ClassifyStart | src/sms_notifier.py:109-112 | example: "start" subscribes |
| KeywordNotifier.ClassifyBoth | src/sms_notifier.py:109-118 | example: "STOP START" subscribes |
| KeywordNotifier.ClassifyOther | src/sms_notifier.py:124-125 | example: "hi" is neither command |
| KeywordNotifier.Obey | src/sms_notifier.py:112-122 | one command on the state: START adds an absent sender, STOP removes a present one, anything else changes nothing; proved by `ObeyFacts` |
| KeywordNotifier.Answer | src/sms_notifier.py:112-125 | the reply kind for one command in the state before it; proved by `AnswerFacts` |
| KeywordNotifier.Obeyed | src/sms_notifier.py:103-125 | the first `n` commands obeyed in listing order, newest first; see `ObeyedKeeps`, `ObeyedStep` and `ObeyedMembership` |
| KeywordNotifier.RepliesFor | src/sms_notifier.py:112-125 | the replies sent while obeying the first `n` commands; see `RepliesOnePerMessage` |
| KeywordNotifier.AnswerFacts | src/sms_notifier.py:112-125 | the help text exactly for bodies with no command; the START replies exactly for START; "subscribed"/"unsubscribed" exactly when the list changed |
| KeywordNotifier.RepliesOnePerMessage | src/sms_notifier.py:102-125 | exactly one reply per processed message, in order, to its sender, answering its command in the state the earlier messages left |
| KeywordNotifier.ObeyFacts | src/sms_notifier.py:112-125 | a command changes only its sender's membership; START leaves it subscribed, STOP unsubscribed, anything else changes nothing |
| KeywordNotifier.ObeyedKeeps | src/sms_notifier.py:102-125 | processing changes only the subscriber list and keeps it duplicate-free |
| KeywordNotifier.ObeyedStep | src/sms_notifier.py:108-125 | the n-th message changes only its sender's membership, as its command says |
| KeywordNotifier.ObeyedMembership | src/sms_notifier.py:103-125 | as written: a number without commands keeps its membership; otherwise its last command processed, the oldest in the window, decides |
| KeywordNotifier.OldestCommandWins | src/sms_notifier.py:103-125 | START at 10:00 then STOP at 10:05 in one window leaves the number subscribed, with replies "not subscribed" then "subscribed" |
| KeywordNotifier.ObeyedInOrder | src/sms_notifier.py:103-125 | the corrected order: the window's commands obeyed oldest first; see `InOrderSilent`, `LatestCommandWins` and `InOrderHonoursLatest` |
| KeywordNotifier.InOrderSilent | src/sms_notifier.py:103-125 | corrected order: a number without commands keeps its membership |
| KeywordNotifier.LatestCommandWins | src/sms_notifier.py:103-125 | corrected order: each number's newest command in the window decides its membership |
| KeywordNotifier.InOrderHonoursLatest | src/sms_notifier.py:103-125 | corrected order: START then STOP in one window ends unsubscribed |
| KeywordNotifier.KeywordSmsNotifier.SendNotification | src/sms_notifier.py:34-66 | false without a client or subscribers; otherwise one send per subscriber, true iff one succeeded |
| KeywordNotifier.KeywordSmsNotifier.AddSubscriber | src/sms_notifier.py:68-70 | the state manager's answer and effect, unchanged |
| KeywordNotifier.KeywordSmsNotifier.RemoveSubscriber | src/sms_notifier.py:72-74 | the state manager's answer and effect, unchanged |
| KeywordNotifier.KeywordSmsNotifier.GetSubscribers | src/sms_notifier.py:76-78 | the stored subscriber list |
| KeywordNotifier.KeywordSmsNotifier.SendReply | src/sms_notifier.py:138-154 | never raises; nothing is sent without a client; true iff there is a client and the send went through |
| KeywordNotifier.KeywordSmsNotifier.CheckForSubscriptionMessages | src/sms_notifier.py:80-136 | nothing changes without a client or listing; an empty listing moves the cursor to now; otherwise the new prefix is obeyed, one reply each, and the cursor becomes the newest date |
| KeywordNotifier.KeywordSmsNotifier.ProcessNew | src/sms_notifier.py:102-125 | processes exactly the new prefix; the state is `Obeyed` and the replies `RepliesFor` of it |
| KeywordNotifier.KeywordSmsNotifier.AnswerMessage | src/sms_notifier.py:108-125 | one loop pass: obeys the message and sends its one reply |
| KeywordNotifier.KeywordSmsNotifier.HandleCommand | src/sms_notifier.py:109-125 | the keyword branches: the new state is `Obey` and the reply `Answer` of the classified body |
| Run.ShouldNotify | main.py:18-27 | the decision of `main`: available, changed, and at least one subscriber; related to the probe by `NotifyDecision` |
| Run.NotifyDecision | main.py:18-34 | an alert is due iff the decisive page offered the product, it was not available before, and the list is not empty; never while unavailable |
| Run.UnavailableButChanged | main.py:18-34 | a failed load after an available run returns `(False, True)` and sends nothing |
| Run.NewSubscriberAlerted | main.py:10-16 | the inbox runs first, so a number whose last message was confirmed without an opt-out is on the list the alert goes to |
| Run.RunJob | main.py:7-34 | one run: the state becomes the inbox result with the probed availability; the alert goes out iff `ShouldNotify`, to the post-inbox list |

## Left out

- Selenium:
  - Browser options and `set_page_load_timeout` are not modelled.
  - `driver.get`, `page_source` and `driver.quit` are replaced by the sequence of attempt outcomes.
  - The fallback driver at nvidia_gpu_stock_checker/stock_checker.py:42-51 is taken to start. If it raised, the exception would escape `check_stock`.
  - The driver creation at src/stock_checker.py:52 is likewise taken to succeed. Its failure is not caught in the source.
- `time.sleep` (retry wait, wait before fetching a confirmation): timing only.
- BeautifulSoup: a card is reduced to the text of its `.item-title` and `.item-operate` elements, each optional.
- Twilio SDK: client setup, `messages.list`, `messages.create` and `fetch` are replaced by the listing option and the outcome oracles. `TwilioRestException` and other exceptions are handled alike, so they are not told apart. Message texts are reduced to a `ReplyKind`.
- Exceptions in the middle of the inbound loop are not modelled. For example, a message with no `date_created` raises in the source. The exception reaches the outer handler after some subscribers were already saved, and the cursor is not advanced. In the model the loop never raises.
- `datetime.now`, `utcnow` and `isoformat` are replaced by the string parameters `nowIso` and `utcHourAgo`. `time.time()` is a float in the source; here it is an integer `clock`.
- JSON encoding is left out:
  - a file that cannot be parsed is `None`;
  - values of the wrong JSON type, or a top-level value that is not an object, are not represented;
  - writes always succeed. `save_state` swallows write errors, and so does `save_current_state`.
- Aliasing of `DEFAULT_STATE["subscribers"]`: the model is not affected. In the source, `.copy()` is shallow, so appending to a default record's list changes the class-level default as well. The model treats records as values.
- Concurrency: overlapping runs on the same file (last writer wins).
- Logging, `twilio_webhook.js`, and the URL and credential constants of config.py. The credentials are reduced to `hasClient`.
- A legacy `check_stock` call takes one `clock` reading and stamps every record it writes with it. The source calls `time.time()` afresh for each write (src/stock_checker.py:37, 87, 100, 111, 115, 120), so successive records of one call may carry different times. No contract depends on the times.
- `TWILIO_MESSAGING_SERVICE_SID` is imported at nvidia_gpu_stock_checker/sms_notifier.py:12 and needed for the client at lines 35-42. The config.py of the repository does not define it. With that config.py the import would fail before `main` runs. The model takes a complete configuration, and `hasClient` stands for all four values being set.
- nvidia_gpu_stock_checker/state_manager.py is not part of this model. The classes of that package are modelled against the interface of src/state_manager.py.
- `strip`, `upper` and `lower` are ASCII-only. Python's Unicode whitespace and case mappings are not modelled.
- KeywordNotifier.KeywordSmsNotifier.ProcessNew: the message loop of src/sms_notifier.py keeps the newest-first order of the source. The corrected order of the finding below is proved about separately and is not wired into the class.

## Findings

| source | as written | input that shows it | evidently intended | confidence | as-written member | corrected member |
|---|---|---|---|---|---|---|
| src/sms_notifier.py:103-125 | new messages are obeyed in listing order, which is newest first, so a number's OLDEST command in the window decides its membership | a new number texts START at 10:00 and STOP at 10:05; the cursor is 09:00 and the listing is `[stop@10:05, start@10:00]`; the number ends subscribed, and is told "not subscribed" and then "subscribed" | the latest command decides, so the number ends unsubscribed | medium, not executed | KeywordNotifier.OldestCommandWins | KeywordNotifier.LatestCommandWins |
