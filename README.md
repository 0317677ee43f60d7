# Parallax contact resolution, modelled in Dafny

Parallax is a macOS client for the Messages database. It shows chats and
their participants by the names in the user's address book. This project
models the part of it that decides which name appears:

- **The handle index** (`ContactStore.fetchContacts`). It walks the address
  book in enumeration order and builds one dictionary. Each phone number is
  stored under its digits and each email under its lowercase form. A later
  write to a key replaces an earlier one. The finished dictionary replaces
  the store's `contacts` field.
- **The resolver** (`ContactStore.contact(for:)`). It tries a lowercased
  email lookup, then the handle's digits, then any key that ends with the
  last ten of those digits. The last step walks a Swift dictionary, whose
  order is unspecified. The model lets the method choose any matching key
  and specifies it with the predicate `Contacts.Resolves`.
- **The display-name rules** of the chat list, the conversation header,
  the details sidebar and the people view. They are pure functions of the
  resolver's answer, passed in as `resolved: Option<Contact>`.
- **Participant extraction** (`PeopleOrbitViewModel.loadParticipants`).
  It collects the distinct non-empty handles of the recent chats and
  publishes at most 150 of them.

Files, one module each:

| file | module | models |
|---|---|---|
| wrappers.dfy | Wrappers | Swift optionals |
| strings.dfy | Strings | digit stripping, ASCII lowercasing, suffixes, `joined`, whitespace trimming |
| contacts.dfy | Contacts | `ContactStore`: the index, the resolver and their specification |
| chats_view.dfy | ChatsView | `ChatRowView.displayName`, `ContactAvatarView` |
| message_thread_view.dfy | MessageThreadView | `ChatHeaderView.displayName`, `MessageBubbleView`, `ComposeMessageView` |
| contact_detail_sidebar.dfy | ContactDetailSidebar | the sidebar title, `resolveName(for:)`, the raw-handle line |
| people_orbit_view.dfy | PeopleOrbitView | `ContactBubble.displayName`, `PeopleOrbitViewModel` |

The `Chat` type comes from IMsgCore, which is not part of this model. The
chat list and the header bind `chat.name` with `if let`, so there it is
optional. The sidebar calls `chat.name.isEmpty` directly, so there it is a
plain string. The model follows each view: `ChatsView.Chat.name` is an
`Option<string>`, and `ContactDetailSidebar.HeaderTitle` takes a `string`.

## Model

| member | source | states |
|---|---|---|
| Strings.Digits | Sources/parallax/Services/ContactStore.swift:60 | removing `[^0-9]` leaves only the characters 0-9 and never makes a string longer |
| Strings.DigitsAppend | Sources/parallax/Services/ContactStore.swift:60 | digit stripping works piece by piece: the digits of a concatenation are the digits of each part, in order |
| Strings.DigitsOfDigitString | Sources/parallax/Services/ContactStore.swift:60 | a string of digits is left unchanged |
| Strings.DigitsIdempotent | Sources/parallax/Services/ContactStore.swift:60-91 | stripping an already stripped key changes nothing, so the handle side and the index side agree |
| Strings.DigitsKeepExactlyTheDigits | Sources/parallax/Services/ContactStore.swift:60 | a character survives stripping exactly when it is a digit of the input |
| Strings.DigitsOfGroups | Sources/parallax/Services/ContactStore.swift:60 | a number written as digit groups with non-digit separators reduces to the groups run together |
| Strings.Lower | Sources/parallax/Services/ContactStore.swift:69 | `lowercased()` keeps the length and maps each character on its own, A-Z to a-z |
| Strings.LowerIdempotent | Sources/parallax/Services/ContactStore.swift:69-86 | lowercasing a lowercase key changes nothing |
| Strings.LowerKeepsAt | Sources/parallax/Services/ContactStore.swift:86 | a handle contains `@` exactly when its lowercase form does |
| Strings.EndsWith | Sources/parallax/Services/ContactStore.swift:99 | `hasSuffix` holds exactly when the string is some string followed by the suffix |
| Strings.Last | Sources/parallax/Services/ContactStore.swift:97 | `suffix(n)` has length min(n, count) and is a suffix of the input |
| Strings.NonEmptyParts | Sources/parallax/Views/ChatsView.swift:47 | `filter { !$0.isEmpty }` keeps exactly the non-empty parts: every kept part is a non-empty input part, and every non-empty input part is kept |
| Strings.NonEmptyPartsAppend | Sources/parallax/Views/ChatsView.swift:47 | filtering a concatenation filters each piece, so the kept parts stay in input order |
| Strings.Join | Sources/parallax/Views/ChatsView.swift:47 | `joined(separator:)` of no parts is empty; otherwise the result starts with the first part and ends with the last, with no separator outside them |
| Strings.JoinTwoNonEmpty | Sources/parallax/Views/ChatsView.swift:47 | joining the non-empty ones of two names puts a separator between them only when both are present |
| Strings.TrimStart | Sources/parallax/Views/MessageThreadView.swift:158 | the result is a suffix of the input, starts with no whitespace and loses only whitespace |
| Strings.TrimEnd | Sources/parallax/Views/MessageThreadView.swift:158 | the result is a prefix of the input, ends with no whitespace and loses only whitespace |
| Strings.Trimmed | Sources/parallax/Views/MessageThreadView.swift:158 | a trimmed string is empty or starts and ends with a non-whitespace character |
| Strings.TrimStartOfWhitespace | Sources/parallax/Views/MessageThreadView.swift:158 | trimming a string of whitespace leaves nothing |
| Strings.TrimmedEmptyIffAllWhitespace | Sources/parallax/Views/MessageThreadView.swift:158 | trimming whitespace and newlines gives the empty string exactly when every character is whitespace or a newline |
| Contacts.IndexOfAppend | Sources/parallax/Services/ContactStore.swift:57-72 | enumerating one more contact applies one more step to the index built so far |
| Contacts.PutPhonesEffect | Sources/parallax/Services/ContactStore.swift:59-64 | the phone loop adds exactly the non-empty digit strings of the numbers, maps each to the contact and keeps every other entry |
| Contacts.PutEmailsEffect | Sources/parallax/Services/ContactStore.swift:66-71 | the email loop adds exactly the lowercase forms of the non-empty emails, maps each to the contact and keeps every other entry |
| Contacts.AddContactEffect | Sources/parallax/Services/ContactStore.swift:57-72 | one contact is stored under exactly its own keys, and no other entry changes |
| Contacts.IndexOfIsLastWriter | Sources/parallax/Services/ContactStore.swift:55-72 | the index holds exactly the keys of the contacts, each mapped to the last contact in enumeration order that has it |
| Contacts.IndexKeysAreNormalised | Sources/parallax/Services/ContactStore.swift:60-69 | every key is non-empty, and is either all digits or already lowercase; empty numbers and emails add nothing |
| Contacts.IndexCoversDirectory | Sources/parallax/Services/ContactStore.swift:59-71 | every number with digits and every non-empty email of every contact can be found in the index |
| Contacts.ResolvedIsIndexed | Sources/parallax/Services/ContactStore.swift:84-107 | any contact the resolver returns is a value of the index |
| Contacts.NoDigitsNoEmailIsUnresolved | Sources/parallax/Services/ContactStore.swift:92-106 | with no email hit and no digits the answer is nil |
| Contacts.EmptyHandleIsUnresolved | Sources/parallax/Services/ContactStore.swift:86-106 | the empty handle resolves to nil |
| Contacts.EmailMissFallsBackToExactDigits | Sources/parallax/Services/ContactStore.swift:86-93 | an email miss continues with the digits, and an exact digit key is returned before any suffix match |
| Contacts.ShortDigitsHaveNoSuffixFallback | Sources/parallax/Services/ContactStore.swift:96-106 | with fewer than ten digits and no exact key the answer is nil, even when some key ends with them |
| Contacts.UniqueSuffixIsDeterministic | Sources/parallax/Services/ContactStore.swift:96-101 | when exactly one key ends with the last ten digits, its contact is the answer whatever the scan order |
| Contacts.ResolutionIsUniqueOutsideSuffixScan | Sources/parallax/Services/ContactStore.swift:84-107 | whether a handle resolves does not depend on scan order, and the answer is unique whenever an email or an exact digit key matches |
| Contacts.CountryCodePrefixResolves | Sources/parallax/Services/ContactStore.swift:95-101 | a handle with a country code in front of a stored ten-digit number finds that number's contact, provided no other key ends with the same ten digits |
| Contacts.ExampleEmailEntry | Sources/parallax/Services/ContactStore.swift:66-71 | a contact with one email is indexed under the lowercase email alone |
| Contacts.ExampleEmailIgnoresCase | Sources/parallax/Services/ContactStore.swift:86-87 | an uppercase email handle finds the contact stored under the lowercase email |
| Contacts.ExampleShortDigits | Sources/parallax/Services/ContactStore.swift:92-106 | a short handle that only ends a stored number does not resolve |
| Contacts.ExampleCollision | Sources/parallax/Services/ContactStore.swift:60-62 | two contacts whose numbers strip to the same digits: the later one owns the key |
| Contacts.ContactStore.constructor | Sources/parallax/Services/ContactStore.swift:12 | the store starts with an empty index |
| Contacts.ContactStore.FetchContacts | Sources/parallax/Services/ContactStore.swift:55-75 | after a fetch `contacts` is exactly the index built from the new directory; nothing of the old map survives |
| Contacts.ContactStore.ContactFor | Sources/parallax/Services/ContactStore.swift:84-107 | the answer satisfies `Resolves` for the current index, is a value of it, and the store is not changed |
| ChatsView.ContactName | Sources/parallax/Views/ChatsView.swift:47 | given and family name joined by one space, or the one that is non-empty, with no stray space |
| ChatsView.ContactNameEmpty | Sources/parallax/Views/ChatsView.swift:47 | a contact's name is empty exactly when both name parts are |
| ChatsView.HasSavedName | Sources/parallax/Views/ChatsView.swift:41 | a saved name that is missing, empty or equal to the identifier is ignored |
| ChatsView.RowDisplayName | Sources/parallax/Views/ChatsView.swift:39-52 | a saved name that is present, non-empty and not the identifier wins; else the resolved contact's name; else the identifier |
| ChatsView.RowDisplayNameBlank | Sources/parallax/Views/ChatsView.swift:39-52 | a row is blank exactly when no saved name applies and the contact has no name parts, or nothing resolves and the identifier is empty |
| ChatsView.UnresolvedRowShowsIdentifier | Sources/parallax/Views/ChatsView.swift:46-51 | with no saved name, no email hit and no digits, the row shows the raw identifier |
| ChatsView.AvatarFor | Sources/parallax/Views/ChatsView.swift:88-103 | the photo is drawn exactly when the handle resolves, the contact has a thumbnail and it decodes, and it is that thumbnail |
| MessageThreadView.HeaderDisplayName | Sources/parallax/Views/MessageThreadView.swift:70-78 | the header always shows the same name as the chat's row in the list |
| MessageThreadView.BubbleText | Sources/parallax/Views/MessageThreadView.swift:124 | a message without text shows "Attachment", otherwise its text |
| MessageThreadView.SendDisabled | Sources/parallax/Views/MessageThreadView.swift:158 | sending is disabled exactly when every character of the text is whitespace or a newline |
| ContactDetailSidebar.HeaderTitle | Sources/parallax/Views/ContactDetailSidebar.swift:42 | the identifier when the chat name is empty, otherwise the chat name |
| ContactDetailSidebar.ResolveName | Sources/parallax/Views/ContactDetailSidebar.swift:91-96 | the resolved contact's name, or the id unchanged |
| ContactDetailSidebar.ShowsRawHandle | Sources/parallax/Views/ContactDetailSidebar.swift:65 | the raw-handle line shows only for a participant that resolved: an unresolved one is shown by its handle alone, never twice |
| ContactDetailSidebar.ResolvedHandleIsNonEmpty | Sources/parallax/Services/ContactStore.swift:84-107 | only a non-empty handle can resolve |
| ContactDetailSidebar.NamelessContactShowsRawHandle | Sources/parallax/Views/ContactDetailSidebar.swift:58-69 | a participant resolved to a contact with no name parts shows an empty name and always the raw handle under it |
| PeopleOrbitView.BubbleLabel | Sources/parallax/Views/PeopleOrbitView.swift:92-99 | given name, else family name; an unresolved handle unchanged up to ten characters, else its first ten and "..." |
| PeopleOrbitView.UnresolvedLabelIsShortPrefix | Sources/parallax/Views/PeopleOrbitView.swift:98 | an unresolved label has at most thirteen characters and begins like the handle |
| PeopleOrbitView.NonEmptyOfMembership | Sources/parallax/Views/PeopleOrbitView.swift:137-141 | one chat contributes exactly its non-empty handles |
| PeopleOrbitView.NonEmptyHandlesMembership | Sources/parallax/Views/PeopleOrbitView.swift:133-143 | the collected set is exactly the non-empty handles that occur in some chat |
| PeopleOrbitView.SelectionIsFromChats | Sources/parallax/Views/PeopleOrbitView.swift:133-146 | a published participant is non-empty, occurs in some chat, and there are at most 150 |
| PeopleOrbitView.ExtractParticipants | Sources/parallax/Views/PeopleOrbitView.swift:133-146 | the result has no duplicates, holds only collected handles, and has min(150, number collected) of them |
| PeopleOrbitView.PeopleOrbitViewModel.constructor | Sources/parallax/Views/PeopleOrbitView.swift:121-122 | the view model starts with no participants and loading |
| PeopleOrbitView.PeopleOrbitViewModel.LoadParticipants | Sources/parallax/Views/PeopleOrbitView.swift:126-127 | starting to load sets `isLoading` and leaves the participants alone |
| PeopleOrbitView.PeopleOrbitViewModel.PublishParticipants | Sources/parallax/Views/PeopleOrbitView.swift:129-151 | the task publishes a valid participant selection and clears `isLoading` |

## Left out

- Contacts authorisation (`requestAccess`), the `CNContactStore` enumeration itself, `Task.detached`, the `MainActor` hops and logging: the enumerated contacts are the input `directory`, and `FetchContacts` runs the task body in one step.
- A failing enumeration (the `catch` branch) keeps the old map; the model has no failure input for it.
- Swift `lowercased()` follows Unicode; the model lowercases only A-Z. `count` and `prefix` count grapheme clusters; the model counts code points.
- Swift compares strings (`==`, dictionary keys, `Set<String>`, `hasSuffix`) up to Unicode canonical equivalence; the model compares code-point sequences. So the same handle in composed and decomposed form is one key, one saved-name match and one participant in Swift, but two in the model. This affects the index lookups and the suffix scan of the resolver, the saved-name and raw-handle comparisons, and the count of participants.
- Within one contact, the order "phones before emails" is not observable: every key the contact writes maps to that contact.
- `ChatsView.AvatarFor`: `NSImage(data:)` is the parameter `decodes`; image decoding and drawing are not modelled.
- `PeopleOrbitView.ExtractParticipants`: which 150 handles are kept, and their order, follow the unspecified order of a Swift `Set`; the contract states only which handles may appear and how many.
- `PeopleOrbitView.PeopleOrbitViewModel.LoadParticipants`: the background task is modelled separately as `PublishParticipants`; there is no interleaving between the two.
- The participant lists of the chats (`MessagesService.participants(for:)` and `recentChats`) are the input `chats`. MessagesService.swift, LLMService.swift and KnowledgeBaseView.swift are SQLite, network and streaming I/O, and are not part of this model.
- BubbleLayout.swift (spiral placement with `Double`, `sqrt` and trigonometry) is floating point and is not part of this model.
- The pan and zoom gesture state of `PeopleOrbitView`, including the zoom clamp between 0.2 and 3.0: `CGFloat` gesture handling.
- `MessageThreadViewModel.loadMessages`, the sidebar's `participants` refresh, `ScrollViewReader` and the pasteboard copy: asynchronous fetches and AppKit/SwiftUI rendering.
- ContentView.swift and parallax.swift (tabs, windows, app lifecycle) are UI only, trim_logo.py is image processing, and Package.swift is a build manifest.
