# A verified model of the VPN-configuration Telegram bot

The bot (`main.py`) hands out VPN configuration links. Every user sees the
same catalog of entries, and one fixed administrator (id 754) manages it.
This project models the bot's decision logic and state in Dafny and proves what it promises.

The model covers:

- **The catalog.** An insertion-ordered dictionary from an id to a name and a link. It is kept as a `map` plus the sequence of its keys.
- **The user list.** It is stored as `sorted(set(...))`.
- **Each user's conversation data.** This is what the bot is waiting for (`awaiting`) and the draft of an entry being added (`new_config`).
- **The handlers that change that state.**
  - the text handler's state machine: registration, the three-step "add config" flow and the broadcast;
  - the callback-button handler, which decodes payloads;
  - removing an entry;
  - the servers keyboard;
  - the reachability report, with its latency tiers.
- **The pure helpers.**
  - the link validator;
  - the id generator, covering the slug and the re-roll loop;
  - the uptime formatter.

Layout, one module per concern:

| file | module | holds |
|---|---|---|
| `wrappers.dfy` | `Wrappers` | `Option` |
| `text.dfy` | `Text` | Python's `strip`, `str(n)`, `int(s)`, `split` and `join`, written out, and the Unicode tables taken as parameters |
| `urls.dfy` | `ConfigUrl` | `validate_config_url` |
| `config_id.dfy` | `ConfigId` | the slug and the candidate id of `generate_config_id` |
| `users.dfy` | `Users` | `save_users` / `register_user` on the stored list |
| `uptime.dfy` | `Uptime` | `format_uptime` and the parser that inverts it |
| `probe.dfy` | `Probe` | host/port selection and latency tiers of `run_ping_test` |
| `dispatch.dfy` | `Dispatch` | `is_admin`, and `button_handler`'s payload decoding |
| `catalog.dfy` | `Catalog` | entries, key-order removal, the broadcast count, keyboard buttons |
| `bot.dfy` | `BotState` | `class Bot` holding the mutable state, and the handlers as methods |

Decisions the code makes, reproduced as written:

- **The slug keeps every character that Python's Unicode `isalnum` accepts, not only ASCII.**
- **A FAQ index is read by `int()`, which takes a decimal digit of any script.** For example, an Arabic-Indic one reads as 1.
- Python's Unicode tables are therefore parameters of the model, passed together as `CharRules`: `lower`, `isalnum`, and the value of a decimal digit.
- **There is no cancel transition in the text handler.** The "cancel" button opens the admin panel and leaves `awaiting` as it was.
- **The four prefix tests of `button_handler` run before the handler tables.** As a result:
  - the payload `copy_sublink` copies a catalog entry with id `sublink`;
  - the payload `admin_remove_config` removes the entry with id `config`;
  - the table entries for those two keys can never be reached.
- **A FAQ payload keeps only the text after `faq_` up to the next `_`** (`data.split('_')[1]`).
- **`int()` skips less whitespace than `str.strip()`.** It skips every `str.isspace()` character around the numeral except the four information separators U+001C..U+001F. It keeps those and then rejects the text, so `faq_` followed by U+001C and `1` is unparsable.

## Model

| member | source | states |
|---|---|---|
| ConfigUrl.ValidConfigUrl | main.py:639-641 | a link is accepted exactly when it begins with one of the eight scheme prefixes |
| ConfigUrl.ExactlyOnePrefix | main.py:640 | no two accepted prefixes can match the same link |
| ConfigUrl.RejectedExamples | main.py:639-641 | the match is case-sensitive and exact: `http://`, `vlesss://`, `VLESS://` and the empty link are refused |
| ConfigId.Slug | main.py:645-647 | the slug is never empty: the lower-cased name's alphanumeric and separator characters, trimmed of separators, or `cfg` |
| ConfigId.SlugEnds | main.py:645-647 | a slug never starts or ends with `-` or `_` |
| ConfigId.SlugDefault | main.py:646-647 | a name with no alphanumeric character other than the separators gets the slug `cfg` |
| ConfigId.SlugKeeps | main.py:645 | every alphanumeric character of the lower-cased name that is not a separator appears in the slug |
| ConfigId.SlugDrawn | main.py:645-647 | a slug other than `cfg` holds only alphanumeric or separator characters of the lower-cased name |
| ConfigId.Candidate | main.py:649 | a candidate starts with the slug, then `_`, then decimal digits only |
| ConfigId.CandidateShape | main.py:648-649 | a candidate is the slug, `_`, and four digits whose value is the roll |
| ConfigId.CandidateInjective | main.py:649 | different rolls give different candidates for one slug |
| BotState.Bot.Reroll | main.py:648-652 | the result is not a catalog id; it is the candidate of the first roll whose candidate is free; every earlier roll's candidate is taken |
| BotState.Bot.NewConfigId | main.py:644-653 | the generated id is free in the catalog, has the form `slug_NNNN` with a roll in 1000..9999, and comes from the first free roll |
| BotState.DraftName | main.py:613 | the draft's name when it has one, otherwise "New Config" |
| Users.SortedUnique | main.py:69-71 | the saved list is strictly ascending and has exactly the members of the input |
| Users.SaveAscending | main.py:69-71 | saving an already ascending list writes it unchanged |
| Users.Registered | main.py:74-78 | after registration the id is in the list; the members are the old ones plus the id; a present id leaves the list as it was; an ascending list stays ascending |
| Users.RegisterTwice | main.py:74-78 | registering twice equals registering once, for any stored list |
| Users.RegisteredOnce | main.py:74-78 | in a list kept strictly ascending, a registered id is stored exactly once |
| BotState.Bot.RegisterUser | main.py:74-78 | a present id leaves the stored list untouched; an absent one is added and the list re-saved strictly ascending |
| Catalog.Without | main.py:554 | the key order after deletion holds every other key and not the deleted one |
| Catalog.WithoutDeletesOne | main.py:554 | deleting a present key removes exactly its one position, the rest keeping their relative order |
| Catalog.WithoutAbsent | main.py:552 | deleting an absent key leaves the order unchanged |
| Catalog.WithoutDistinct | main.py:554 | the key order stays free of duplicates after a deletion |
| BotState.Bot.RemoveConfig | main.py:551-561 | a present id is removed and its name returned, with only that entry and that one order position gone; an absent id changes nothing and yields no name |
| BotState.Bot.HandleText | main.py:581-636 | the sender is always registered. With nothing awaited, nothing else changes. A non-administrator's pending state is cleared and nothing else changes. It preserves that only the administrator's conversation waits, and each of the three flows ends in its state as in the rows below |
| BotState.Bot.TakeName | main.py:599-606 | the stripped text becomes the draft's name and the link is awaited next; the catalog is untouched |
| BotState.Bot.TakeUrl | main.py:608-621 | an invalid link changes nothing; a valid one adds exactly one entry under a new id at the end of the order, with the draft's name or "New Config", and ends the conversation |
| BotState.Bot.AddEntry | main.py:614-616 | the new id was absent; the catalog gains exactly that entry; the order gains it at the end |
| BotState.Bot.TakeBroadcast | main.py:623-636 | the reply counts the stored users whose send succeeded; only `awaiting` is dropped, the draft stays |
| BotState.SendToAll | main.py:626-632 | the loop's count equals the number of recipients whose send succeeded |
| Catalog.DeliveredCount | main.py:626-632 | the number of successful sends is at most the number of recipients; it equals it when every send succeeds and is 0 when none does |
| Catalog.DeliveredCountIsReachedUsers | main.py:626-632 | for a duplicate-free list that count is the number of distinct users reached |
| Catalog.BroadcastExample | main.py:626-632 | sending to 1, 2, 3 where 2 fails reports 2 |
| BotState.Bot.PressButton | main.py:168-227 | the action is the decoded payload; the state changes are those of `admin_add_config` and `admin_broadcast` (main.py lines 528-530 and 564-565). The `admin_add_config` key sets the administrator's state to awaiting a name with an empty draft. The `admin_broadcast` key sets it to awaiting a message. Both keys are denied to anyone else, changing nothing. A removal payload removes that entry. Every other action changes no state |
| Dispatch.PrefixAction | main.py:176-194 | the prefixes are tried in the order `config_`, `faq_`, `copy_`, `admin_remove_`. The id is the text after the first `_`, or after the second for `admin_remove_`, which a non-administrator is denied. There is no result exactly when no prefix matches |
| Dispatch.IsAdmin | main.py:97-98 | a user is the administrator exactly when their id is 754 |
| Dispatch.SimpleHandler | main.py:196-207 | a key of the public table names exactly the screen whose key it is |
| Dispatch.AdminHandler | main.py:209-217 | a key of the administrator table names exactly the screen whose key it is |
| Dispatch.SimpleKeyRoundTrip | main.py:196-207 | every screen of the public table is found under its key |
| Dispatch.AdminKeyRoundTrip | main.py:209-217 | every screen of the administrator table is found under its key |
| Dispatch.TableAction | main.py:196-227 | a public key opens its screen. An administrator key, not shadowed by a public one, opens its screen for the administrator and is denied to anyone else. A key in neither table is ignored, and only such a key is |
| Dispatch.FaqAction | main.py:181-182 | an `int()` failure is unparsable, and only it. A parsed index in 0..2 is shown. Any other parsed index is rejected with that value |
| Dispatch.Decode | main.py:176-227 | removal and administrator screens happen only for the administrator; a shown FAQ index is in range |
| Dispatch.DecodeConfigPayload | main.py:176-178 | `config_<id>` shows entry `<id>`, whatever `<id>` holds |
| Dispatch.DecodeCopyPayload | main.py:184-186 | `copy_<id>` copies entry `<id>` |
| Dispatch.DecodeRemovePayload | main.py:188-193 | `admin_remove_<id>` removes `<id>` for the administrator and is denied to anyone else |
| Dispatch.DecodeFaqPayload | main.py:180-182 | `faq_<str(i)>`, for any integer `i`, shows question `i` when `0 <= i < 3`; otherwise it is rejected with `i`, negative indices included. This holds for any digit table that reads ASCII digits as usual |
| Dispatch.DecodeFaqSegment | main.py:180-181 | a FAQ segment with no `_` is handed whole to `int()` |
| Dispatch.DecodeFaqSeparator | main.py:180-181 | an information separator U+001C..U+001F right after `faq_` makes the payload unparsable |
| Dispatch.SeparatorUnparsable | main.py:181 | `int()` rejects a text that starts with an information separator |
| Dispatch.FaqSeparatorExample | main.py:180-181 | the payload `faq_` U+001C `1` is unparsable |
| Dispatch.DecodeFaqDigit | main.py:180-182 | `faq_` followed by one decimal digit of any script is read by that digit's value, then shown or rejected |
| Dispatch.DecodeSimpleKey | main.py:196-221 | every public screen except the shadowed copy-sublink one opens from its key, for anyone |
| Dispatch.DecodeAdminKey | main.py:209-227 | every administrator screen except the shadowed remove menu opens from its key for the administrator and is denied to anyone else |
| Dispatch.ShadowedKeys | main.py:184-188 | the keys `copy_sublink` and `admin_remove_config` begin with the `copy_` and `admin_remove_` prefixes tested before the tables |
| Dispatch.CopySublinkShadowed | main.py:184-186 | the table key `copy_sublink` is taken by the `copy_` test: it copies entry "sublink" |
| Dispatch.RemoveMenuShadowed | main.py:188-193 | the table key `admin_remove_config` is taken by the `admin_remove_` test: it removes entry "config", or is denied |
| Dispatch.ShadowedHandlersUnreachable | main.py:196-217 | no payload ever reaches the copy-sublink or remove-menu table handlers |
| Dispatch.AdminGate | main.py:188-193 | a non-administrator is denied exactly what the administrator would remove or open from the admin table, and gets the same action for everything else |
| Catalog.ServerButtonOpensEntry | main.py:277-279 | pressing a server button shows exactly the entry it was made for |
| Catalog.BackButtonGoesBack | main.py:289 | the servers keyboard's back button leads to the start screen |
| BotState.Bot.ServerButtonsOpenEntries | main.py:272-285 | the k-th server button carries the k-th entry's name, and pressing it shows exactly that entry |
| BotState.Bot.ServerRow | main.py:275-285 | one row holds the buttons at positions `i` and `i + 1` that exist |
| BotState.Bot.ServerRows | main.py:270-289 | the server buttons, in catalog order, in rows of two with only the last possibly single, then a row holding only the back button |
| Probe.EndpointOf | main.py:376-380 | no host (or an empty one) means unknown format; otherwise that host, with the link's port or 443 when it has none |
| Probe.TierOf | main.py:396-401 | below 120 ms is good, 120 up to 249 fair, 250 and above poor |
| Probe.TierMonotone | main.py:396-401 | a slower connect never lands in a better tier |
| Probe.TierBoundaries | main.py:396-401 | 119/120 and 249/250 fall on either side of the boundaries |
| Probe.LineFor | main.py:386-405 | no host gives "unknown format"; a failed connect gives unreachable; a connect gives the latency and its tier; the line names the entry |
| BotState.Bot.PingReport | main.py:373-405 | one report line per catalog entry, in catalog order, each from that entry's host and port and its connect outcome |
| Uptime.FormatUptime | main.py:81-94 | the text renders days, hours and minutes each only when non-zero, then seconds, with hours < 24 and minutes, seconds < 60; they add up to the input, and reading the text back gives the input |
| Uptime.RenderRoundTrip | main.py:86-94 | parsing a rendered list of parts gives back the seconds it stands for |
| Text.Trim | main.py:601 | stripping removes the maximal run of removable characters from each end and nothing else |
| Text.DecimalRoundTrip | main.py:648 | reading back `str(n)` gives `n` |
| Text.ParseInt | main.py:181 | text that is empty once `int()`'s whitespace is skipped, or that holds no decimal digit at all, is a ValueError. A negative result comes from a leading `-`, and without one the result is not negative |
| Text.TrimPadded | main.py:181 | padding of removable characters around a text whose two ends are kept is removed, and nothing else |
| Text.SignedDecimal | main.py:181 | `str(z)` is non-empty, ends in a digit, holds only digits after an optional `-`, and starts with `-` exactly when `z < 0` |
| Text.ParseIntSigned | main.py:181 | `int(w1 + str(z) + w2) == z` for every integer `z` and any padding of `int()` whitespace |
| Text.ParseIntSignedDecimal | main.py:181 | `int(str(z)) == z` for every integer `z` |
| Text.ParseIntUnsigned | main.py:181 | text that trims to unsigned decimal digits reads as their value |
| Text.ParseIntNegative | main.py:181 | text that trims to `-` and decimal digits reads as minus their value |
| Text.ParseIntOfDecimal | main.py:181 | `int(str(n)) == n` |
| Text.SplitJoin | main.py:94 | splitting a joined list gives it back when no part holds the separator |
| BotState.DefaultShapesValid | main.py:28-39 | every link of the two shapes the default catalog uses passes the validator |
| BotState.DefaultCatalogWellFormed | main.py:28-39 | the ten default ids are distinct and are exactly the default catalog's keys |
| BotState.Bot.constructor | main.py:59-66 | the loaded state holds the stored catalog and user list and no conversation |

## Left out

- Telegram I/O is not modelled: sending and editing messages, answering queries, and the keyboards of the other menus. Each such handler is represented only by the action its payload decodes to.
- Showing and copying an entry (`show_config`, `copy_config_value`) and the FAQ text are decoded to the action naming the id or index. The lookup and the rendered message are not modelled.
- QR-code generation is left out: it is a foreign library.
- The JSON files are left out. The catalog and user list are fields; every change corresponds to a save.
- `load_json_file`'s fallback to defaults on a missing or broken file is represented only by the constructor's arguments and `DefaultConfigs`.
- The two coercions of `load_users` and `save_users` are not modelled. These are a dictionary-valued file becoming its values, and `int()` of each stored user.
- `urlparse` is a parameter of `PingReport` giving host and port.
- The connect attempt and its timer are also a parameter, one outcome per entry. The 2.5-second timeout and the float-to-int latency truncation happen inside it.
- `random.randint` is represented by a supplied sequence of rolls.
- NewConfigId: the source loops until it finds a free id, with no bound. The model requires that the supplied rolls contain one free candidate, and proves that the first free one is taken.
- Python's Unicode `str.lower()` and `str.isalnum()` are parameters.
- The clock, `START_TIME`, `MESSAGE_COUNT`, the statistics and export screens, and the catalog listing are left out. They only render.
- FormatUptime takes a whole, non-negative number of seconds. The source's `int()` truncation of a float is not modelled.
- HandleText: an update without a sender is not modelled. The source skips registration and then fails: a conversation store that does not exist raises when `awaiting` is read, and an existing one with something awaited raises in `is_admin(None)`.
- HandleText: an `awaiting` value other than the three the bot itself sets is not modelled.
- The asynchronous event loop, `main` and the command handlers that only reply with fixed text are left out.
- `/start` registers its sender the same way the text handler does. That registration is `BotState.Bot.RegisterUser`; the greeting it sends is left out.
- SendToAll: each send's outcome is a function of the recipient id. A hand-edited user file may list an id twice, and the source then sends twice, with outcomes that may differ. The model gives both sends one outcome.
- HandleText does not require the stored user list to be ascending. A hand-edited file may be unsorted, and registering an id that is already present does not re-sort it. The list is proved ascending whenever the handler writes it.
- BotState.DefaultShapesValid: the validity of each of the ten default links is proved through its two shapes (`vless://…` and `trojan://…`), not entry by entry.
