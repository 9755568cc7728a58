# Postmark Java client: outbound message model

A Dafny model of `BaseMessage`, the data holder for an outbound e-mail in the
Postmark Java client. A message carries a sender, To/Cc/Bcc recipients, reply-to,
subject, HTML and text bodies, a tag, an ordered list of custom headers and an
ordered list of attachment descriptors. Beyond plain field assignment, the class does
two things:

- It formats recipient collections into one header-style string. A list of
  addresses becomes `"a","b"`. A display-name to address map becomes
  `"Name"<addr>,"Other"<addr2>`. Commas go only between entries.
- It grows its header and attachment lists, creating a list lazily when it is
  absent.

The mutable Java object is modelled as an immutable `Message` datatype. Each
nullable field is an `Option`, and every operation is a pure function that returns
the updated message. Each function's contract says which field changed and that no
other field did.

Files:

- `wrappers.dfy`: `Option`.
- `text.dfy`: comma join, character count and split-at-first-occurrence, with
  their lemmas.
- `recipients.dfy`: the two formatters. Each appears twice: as a join of tokens,
  and as the Java `while` loop that appends a comma only when another entry
  follows. The loop is proved equal to the join. The file also holds a parser for
  each format, which serves as the formatter's inverse.
- `recipient_properties.dfy`: shape, separator count, round trip, injectivity,
  and two worked examples. The Javadoc of the map overload shows
  `"John Smith" <john@example.com>` with a space before `<`; the code prints no
  space, and the model follows the code.
- `message.dfy`: the message record, its constructors and its update operations.
- `message_properties.dfy`: overwrite, commute, append and clear laws.

## Model

| member | source | states |
|---|---|---|
| Recipients.FormatAddresses | src/main/java/com/wildbit/java/postmark/client/data/model/message/BaseMessage.java:264-276 | the list form is empty exactly when the list is, and never null; a non-empty result starts and ends with a double quote, so there is no leading or trailing comma; one address gives just that address in quotes, with no separator |
| Recipients.FormatNamed | src/main/java/com/wildbit/java/postmark/client/data/model/message/BaseMessage.java:250-262 | the map form is empty exactly when the map is; a non-empty result starts with `"` and ends with `>`; one entry gives exactly `"Name"<address>` |
| Recipients.ConvertAddresses | src/main/java/com/wildbit/java/postmark/client/data/model/message/BaseMessage.java:264-276 | the loop that appends a quoted address and then a comma only if another entry follows builds exactly the comma-join of the quoted addresses, in input order |
| Recipients.ConvertNamed | src/main/java/com/wildbit/java/postmark/client/data/model/message/BaseMessage.java:250-262 | the loop over map entries, which appends `"key"<value>` and then a comma only if another entry follows, builds exactly the comma-join of the tokens, in iteration order |
| RecipientProperties.ParseFormatAddresses | src/main/java/com/wildbit/java/postmark/client/data/model/message/BaseMessage.java:264-276 | if no address contains a double quote, the list-form string can be read back into the same addresses in the same order: one token per entry, nothing lost or reordered |
| RecipientProperties.FormatAddressesInjective | src/main/java/com/wildbit/java/postmark/client/data/model/message/BaseMessage.java:264-276 | distinct lists of quote-free addresses never format to the same string |
| RecipientProperties.FormatAddressesSeparators | src/main/java/com/wildbit/java/postmark/client/data/model/message/BaseMessage.java:272 | if no address contains a comma, n addresses give exactly n - 1 commas, and zero or one address gives none |
| RecipientProperties.QuotedAddressIsAmbiguous | src/main/java/com/wildbit/java/postmark/client/data/model/message/BaseMessage.java:271 | an address is not escaped: the one address `a","b` prints the same as the two addresses `a` and `b` |
| RecipientProperties.AddressListExample | src/main/java/com/wildbit/java/postmark/client/data/model/message/BaseMessage.java:264-276 | `["a@x.com","b@x.com"]` prints as `"a@x.com","b@x.com"` |
| RecipientProperties.ParseFormatNamed | src/main/java/com/wildbit/java/postmark/client/data/model/message/BaseMessage.java:250-262 | if no display name contains a double quote and no address contains `>`, the map-form string reads back into the same (name, address) entries in iteration order, with the key as display name and the value as address |
| RecipientProperties.FormatNamedInjective | src/main/java/com/wildbit/java/postmark/client/data/model/message/BaseMessage.java:250-262 | distinct entry sequences, under the same delimiter restriction, never format to the same string |
| RecipientProperties.FormatNamedSeparators | src/main/java/com/wildbit/java/postmark/client/data/model/message/BaseMessage.java:258 | if no name or address contains a comma, n entries give exactly n - 1 commas |
| RecipientProperties.NamedExample | src/main/java/com/wildbit/java/postmark/client/data/model/message/BaseMessage.java:250-262 | `John Smith -> john@example.com` prints as `"John Smith"<john@example.com>`, with no space before `<` |
| Message.Create | src/main/java/com/wildbit/java/postmark/client/data/model/message/BaseMessage.java:27-29 | the no-argument constructor leaves every text field unset and headers absent, and starts attachments as an empty list |
| Message.CreateHtml | src/main/java/com/wildbit/java/postmark/client/data/model/message/BaseMessage.java:31-37 | sets sender, recipient, subject and HTML body to the arguments, leaves the other text fields unset and headers absent, and starts attachments empty |
| Message.CreateHtmlAndText | src/main/java/com/wildbit/java/postmark/client/data/model/message/BaseMessage.java:39-46 | as the four-argument constructor, and also sets the text body |
| Message.Set | src/main/java/com/wildbit/java/postmark/client/data/model/message/BaseMessage.java:54-181 | a plain string setter stores its argument verbatim in its own field, and every other field and both lists are unchanged |
| Message.SetToNamed | src/main/java/com/wildbit/java/postmark/client/data/model/message/BaseMessage.java:72-74 | `To` becomes the map-form string, with no merge with its old value; nothing else changes |
| Message.SetToAddresses | src/main/java/com/wildbit/java/postmark/client/data/model/message/BaseMessage.java:82-84 | `To` becomes the list-form string; nothing else changes |
| Message.SetCcNamed | src/main/java/com/wildbit/java/postmark/client/data/model/message/BaseMessage.java:100-102 | `Cc` becomes the map-form string; nothing else changes |
| Message.SetCcAddresses | src/main/java/com/wildbit/java/postmark/client/data/model/message/BaseMessage.java:110-112 | `Cc` becomes the list-form string; nothing else changes |
| Message.SetBccNamed | src/main/java/com/wildbit/java/postmark/client/data/model/message/BaseMessage.java:128-130 | `Bcc` becomes the map-form string; nothing else changes |
| Message.SetBccAddresses | src/main/java/com/wildbit/java/postmark/client/data/model/message/BaseMessage.java:138-140 | `Bcc` becomes the list-form string; nothing else changes |
| Message.AddHeader | src/main/java/com/wildbit/java/postmark/client/data/model/message/BaseMessage.java:191-196 | afterwards headers are present and one longer than before (an absent list counts as empty); the old headers keep their order as a prefix, and the new (name, value) is last; text fields and attachments are unchanged |
| Message.ClearHeaders | src/main/java/com/wildbit/java/postmark/client/data/model/message/BaseMessage.java:198-202 | absent headers stay absent and present headers become an empty list; nothing else changes |
| Message.AddAttachment | src/main/java/com/wildbit/java/postmark/client/data/model/message/BaseMessage.java:221-226 | afterwards attachments are present and one longer, with the old ones as a prefix and the new descriptor last; text fields and headers are unchanged |
| Message.AddAttachments | src/main/java/com/wildbit/java/postmark/client/data/model/message/BaseMessage.java:228-230 | a non-empty list is appended in order after the existing attachments; an empty list changes nothing, and in particular does not create an absent list; text fields and headers are unchanged |
| Message.FileAttachment | src/main/java/com/wildbit/java/postmark/client/data/model/message/BaseMessage.java:213-216 | a file's descriptor has exactly the keys `Name`, `Content` and `ContentType`, holding the file name, the encoded content and the content type |
| Message.AddFileAttachment | src/main/java/com/wildbit/java/postmark/client/data/model/message/BaseMessage.java:212-219 | attaching a file appends exactly its descriptor after the existing attachments and changes nothing else |
| MessageProperties.SetOverwrites | src/main/java/com/wildbit/java/postmark/client/data/model/message/BaseMessage.java:54-181 | setting a field twice is the same as setting it once to the second value |
| MessageProperties.SetCommutes | src/main/java/com/wildbit/java/postmark/client/data/model/message/BaseMessage.java:54-181 | setters of different fields commute |
| MessageProperties.RecipientSetterReplaces | src/main/java/com/wildbit/java/postmark/client/data/model/message/BaseMessage.java:72-140 | for each of the six structured recipient setters, the result does not depend on the field's previous value, whatever it was: absent, a raw string, or a list set through either overload |
| MessageProperties.AddHeaderKeepsRepeatedNames | src/main/java/com/wildbit/java/postmark/client/data/model/message/BaseMessage.java:191-196 | two headers added under the same name are both kept, in insertion order; neither overwrites the other |
| MessageProperties.ClearHeadersIdempotent | src/main/java/com/wildbit/java/postmark/client/data/model/message/BaseMessage.java:198-202 | clearing twice equals clearing once |
| MessageProperties.ClearAfterAddHeader | src/main/java/com/wildbit/java/postmark/client/data/model/message/BaseMessage.java:191-202 | after a header has been added, clearing leaves a present, empty list |
| MessageProperties.AddAttachmentsConcat | src/main/java/com/wildbit/java/postmark/client/data/model/message/BaseMessage.java:228-230 | adding `xs` and then `ys` equals adding `xs + ys` |
| MessageProperties.AttachmentsInCallOrder | src/main/java/com/wildbit/java/postmark/client/data/model/message/BaseMessage.java:221-230 | from a freshly constructed message, adding N descriptors gives exactly those N, in call order |

## Left out

- Reading an attachment file is not modelled. This covers `addAttachment(String path)`,
  `readFileContent` and `readFileContentType` (BaseMessage.java:212-219, 232-241):
  the file read, the JDK Base64 encoder and the external `MimeUtil` detector
  cannot be modelled here. `AddFileAttachment` takes three values as parameters:
  the base name that `File.getName` would give, the encoded content, and the
  detector's string. The `IOException` of an unreadable file is not modelled.
- `HashMap` iteration order is unspecified. The map overloads take the entries as a
  sequence in whatever order the iteration produced. The model does not require
  distinct keys, although a `HashMap` cannot hold duplicates.
- Java `null` arguments are not modelled: a null string, a null collection
  (which throws a `NullPointerException` at `recipients.entrySet()` or
  `recipients.iterator()`, before the loop starts), or a null element (which `StringBuilder`
  would print as `null`). Every argument is a plain string or sequence.
- Aliasing is not modelled, because lists are values. In Java the getters return
  the live `ArrayList`, and `setHeaders`/`setAttachments` store the caller's list.
  Calling `addAttachments` with the message's own list would make the JDK's
  `ArrayList.forEach` append the first element once and then throw
  `ConcurrentModificationException`.
- The getters and `setHeaders`/`setAttachments` are not modelled as separate
  operations. They are plain field reads and writes. `Get` reads a text field.
  `Option` fields allow a list to be assigned absent: this is why `attachments`
  can be absent even though every constructor starts it empty.
- The `Header` class is not part of this model; a header is a (name, value) pair.
- RecipientProperties.FormatAddressesSeparators: counts commas only when no address contains one. A comma inside an address cannot be told apart from a separator. For arbitrary addresses, the separator placement is stated through the join that `ConvertAddresses` is proved to build.
- RecipientProperties.FormatNamedSeparators: likewise requires comma-free names and addresses.
- RecipientProperties.ParseFormatAddresses: holds only for addresses without a double quote. The source does not escape quotes, so other lists can be ambiguous (`QuotedAddressIsAmbiguous`).
- RecipientProperties.ParseFormatNamed: holds only for names without a double quote and addresses without `>`, for the same reason.
