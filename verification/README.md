# fidoSSL: WebAuthn ceremonies in a TLS 1.3 extension

fidoSSL carries WebAuthn registration and authentication in a custom extension of the ClientHello, CertificateRequest
and Certificate messages of TLS 1.3. This project models its four layers and proves how they work together.

* **Byte-level helpers.** `Encoding` (base64 and base64url), `Padding` (bit padding, initialisation vectors),
  `AuthenticatorData` (section 6.1 of WebAuthn Level 2) and `Domain` (registrable domain suffixes).
* **Message codec.** `Cbor` is the part of RFC 8949 the messages use. `CborEncoder` is TinyCBOR's bounded encoder, which
  keeps counting once its buffer is full; `CborParser` is its cursor. `Packets` says, as functions on values, what each
  message looks like on the wire and what a reader makes of any bytes. `Builder` and `Parser` are the builders and
  parsers themselves, with their cursors, loops and early exits, proved equal to those functions. `OptionalMaps`,
  `RoundTrip` and `WireFormat` prove the properties of the format, `ParserLimits` what a parser can return at all, and
  `Reference` ties bytes, numbers and texts to RFC 8949 and to the tables of the source.
* **Credential store.** `Store` holds the two tables, as a value and as a class that is shared by all server contexts.
* **Protocol.** `Environment` collects states, ceremonies and the foreign libraries (hash, cipher, JSON, libfido2, the
  public suffix list) as functions with stated laws. `RelyingParty` and `UserDevice` say what every function of the two
  sides does to its data; `ServerContext` and `ClientContext` hold the two structs as classes whose methods update the
  fields in place, call the codec and the store, and are proved to do exactly that. `ServerDecisions`, `ServerRequests` and
  `ClientDecisions` say of the bytes that are received and sent, and without naming any of these functions, exactly which
  messages are accepted, what is taken from them and what is sent. On top stand `ServerInvariants`, `ClientInvariants`,
  `Runs`, `Progress`, `Correspondence`, `Admission`, `Session`, `Lockstep` and `Honest`.
  `Witness` supplies libraries and an authenticator for which the assumptions of the honest runs hold, `Embedding` turns
  honest handshakes into runs, and `LargeCounter` is one run in which a signature counter is overtaken.

A failed C assertion, or taking the length of a string that is not there, is a possible outcome of a step (`Aborted`), so
that its absence is a theorem. A run is any sequence of callbacks of any number of server contexts over one store, with
arbitrary input bytes; every callback is one step.

## Main results

1. An honest run of each of the three ceremonies succeeds, handshake by handshake, through padding, encoding, encryption,
   decryption, parsing and unpadding, and both ends agree on key, challenge, user name, user id and allow list
   (`HonestRegistration`, `HonestServerSideAuthentication`, `DiscoverableHandshake`). A registered user can come back
   with either kind of credential (`RegisterThenAuthenticate`, `RegisterThenDiscover`), and does so for concrete stand-ins
   of libraries and authenticator, so that in none of the ceremonies the assumptions contradict each other
   (`UserRegistersAndReturns`, `UserRegistersAndIsFound`). The server takes the client data exactly when the server name is
   the relying party id (`ServerNameMustBeRpId`), although the client accepts any registrable suffix.
2. Whatever is sent, every authentication success traces back to an earlier registration success that stored the same
   credential id, user, relying party and key, and is bound to this context's challenge, origin and allow list
   (`AuthenticationCorrespondence`, `ChallengeWasSent`). Every registration was shown the server's ticket before, and every
   server-side login the name of a stored user (`RegistrationNeedsTicket`, `LoginNeedsName`). Responses, indications and
   requests are accepted exactly under conditions on their bytes (`AuthenticationExactly`, `RegistrationExactly`,
   `IndicationExactly`, `NameExactly`, `RegRequestExactly`, `AuthRequestExactly`).
3. Every packet that can be built is parsed back (`BuildThenParse` and the three inner encodings), a message is built
   exactly when its closed-form length fits (`BuildSucceedsExactly`), and the order of optional fields does not matter
   (`RegRequestAnyOrder`, `AuthRequestAnyOrder`).
4. Accepted signature counters increase as unsigned numbers if registrations start below 2^31 (`CounterMonotonicity`);
   without that condition they do exactly when the sign bit is not lost (`UnsignedCountersIncreaseExactly`), and it is lost
   in a run that registers with 2^31 and logs in with 2^31 + 1 and then 0 (`CounterIsOvertaken`).
5. Server assertions never fail in any run (`RunKeeps`). The client process ends exactly in two situations (`ClientKeeps`),
   and configured clients get into both: a response is due without challenge or origin, as after a request with an empty
   challenge (`EmptyChallengeEnds`), or a server-side authentication is offered without a user name (`NamelessClientEnds`).
6. When messages are delivered in order, the states of both sides are a function of the ceremony and of the number of
   callbacks so far, whatever else happens (`InOrderOnCourse`), and no callback finds a state that its switch has no
   branch for (`NoInvalidState`).
7. Every context on either side makes at most five moves and has one final state (`BoundedMoves`, `OutcomeIsFinal`,
   `ClientBoundedMoves`, `ResponseIsFinal`), and no key and initialisation vector are used twice (`NoPairReused`).

Where code and comments disagree, the model follows the code: a comment says that unknown keys of an authentication
request are tolerated, but their values are read as further keys, which `UnknownKeyIgnoredExactly` makes precise.

## Model

| member | source | states |
|---|---|---|
| CborEncoder.Encoder.Append | src/serialize.c:1204-1205 | bytes are written whole or, once something did not fit, only counted; the overflow flag is set exactly when everything asked for exceeds the buffer |
| CborEncoder.Encoder.Close | src/serialize.c:1558-1564 | closing a container is an error unless its announced item count was met and everything fitted |
| CborEncoder.Encoder.CreateMap | src/serialize.c:1340-1349 | opening a map announces twice as many items as pairs and suspends the count of the container around it |
| CborParser.CborValue.TakeInt | src/serialize.c:676-682 | reads an integer of either sign that fits a C int and moves behind it; at the end of a container or on any other item there is none |
| CborParser.CborValue.Leave | src/serialize.c:339-347 | goes on directly behind the container whose items were read |
| Cbor.HeadRoundTrip | src/serialize.c:83-99 | a shortest head of any major type and 64-bit argument is read back |
| Cbor.AdvanceAt | src/serialize.c:554-557 | skipping a value of any kind that is nested at most 1024 deep ends exactly behind it |
| Parser.GetPacketType | src/serialize.c:74-102 | the type in front of any input, or an error |
| Parser.ParseParamArray | src/serialize.c:296-356 | the list of credential parameters as read element by element; an empty list, a foreign type or a left-over element is refused |
| Parser.ParseDescriptorArray | src/serialize.c:1029-1093 | the same for credential descriptors, where empty ids are refused too |
| Parser.ParseExtensions | src/serialize.c:512-552 | the map of extensions with its length limits; an empty map reads as no extensions |
| Parser.ParseCriteria | src/serialize.c:420-487 | the selection criteria, where unknown criteria and values are refused |
| Parser.ParseRegOptions | src/serialize.c:388-560 | the optional map of a registration request with every branch of its key switch; unknown keys are skipped with their value |
| Parser.ParseRegRequest | src/serialize.c:236-566 | a whole registration request with its defaults, for 6 or 7 items |
| Parser.ParseAuthRequest | src/serialize.c:645-782 | a whole authentication request; the value of an unknown key is read as the next key |
| Parser.ParseAuthResponse | src/serialize.c:783-875 | a whole authentication response |
| Parser.CborParse | src/serialize.c:107-884 | for any input and expected type, the result of the value-level parser |
| Parser.CborParseEncryptedData | src/serialize.c:888-949 | the secret part of a registration indication |
| Parser.CborParseRegSecret | src/serialize.c:951-1106 | the secret part of a registration request, with or without excluded credentials |
| Parser.CborParseAllowList | src/serialize.c:1109-1191 | the allow list of an authentication request |
| Builder.EncodeParamList | src/serialize.c:1317-1329 | the loop writes the encodings of all parameters in order or stops because they do not fit |
| Builder.EncodeDescriptorArray | src/serialize.c:1631-1652 | an array of descriptors is appended and counted as one item exactly if it fits |
| Builder.EncodeExtensions | src/serialize.c:1381-1393 | a map of extensions is appended whole, and the error is reported exactly if it does not fit |
| Builder.EncodeAuthSel | src/serialize.c:1346-1373 | only criteria that are set are counted and written |
| Builder.EncodeRegOptions | src/serialize.c:1339-1399 | the counted entries are the written ones, in the order timeout, selection, attestation, extensions |
| Builder.EncodeAuthOptions | src/serialize.c:1462-1504 | the same in the order timeout, relying party, allow list, user verification, extensions |
| Builder.BuildAuthResponse | src/serialize.c:1507-1553 | five items are announced whether or not a map of optional fields follows |
| Builder.CborBuild | src/serialize.c:1193-1575 | under the builder's assertions, exactly the canonical encoding when item counts match and 2000 bytes suffice, otherwise an error |
| Builder.CborBuildEncryptedData | src/serialize.c:1577-1605 | the same for the registration indication's secret and 1000 bytes |
| Builder.CborBuildRegSecret | src/serialize.c:1609-1666 | the same for the registration request's secret |
| Builder.CborBuildAllowList | src/serialize.c:1831-1866 | the same for allow lists of any length |
| OptionalMaps.OrderIndependent | src/serialize.c:388-560 | known entries with distinct keys give one result in any order and with any unknown entries between them |
| OptionalMaps.CriteriaOrderIndependent | src/serialize.c:421-487 | so do selection criteria |
| OptionalMaps.AuthOrderIndependent | src/serialize.c:675-780 | so do the entries of an authentication request |
| RoundTrip.BuildThenParse | src/serialize.c:107-884 | every packet within the parser's limits that can be built is parsed back, with discouraged, preferred and none in place of unset policies |
| RoundTrip.EncryptedDataRoundTrip | src/serialize.c:1577-1605 | a padded name and a ticket of 256 bytes always fit and are read back |
| RoundTrip.RegSecretRoundTrip | src/serialize.c:951-1106 | any number of excluded credentials with non-empty ids that fits is read back, and the container is consumed exactly: no item is left and reading stops where the encoding ends, whatever follows |
| RoundTrip.AllowListRoundTrip | src/serialize.c:1109-1191 | any non-empty allow list that fits is read back with its container consumed exactly, and an empty one is refused |
| WireFormat.RegRequestAnyOrder | src/serialize.c:388-560 | on bytes: two registration requests with the same known fields are parsed to one packet whatever their order and their unknown keys |
| WireFormat.RegRequestCriteriaAnyOrder | src/serialize.c:414-493 | on bytes: reordering the criteria inside the selection changes nothing |
| WireFormat.AuthRequestAnyOrder | src/serialize.c:675-780 | on bytes: two authentication requests with the same fields in any order are parsed to one packet |
| WireFormat.UnknownKeyIgnoredExactly | src/serialize.c:773-778 | an unknown key of an authentication request is ignored, whatever follows, exactly when its value is an integer that is no known key |
| WireFormat.WireLength | src/serialize.c:1300-1339 | the length of every message in closed form |
| WireFormat.BuildSucceedsExactly | src/serialize.c:1507-1571 | building succeeds exactly if that length is at most 2000, except for a response without both optional fields and a pre-response with other lengths |
| WireFormat.RegSecretBuildSucceedsExactly | src/serialize.c:1622-1661 | the secret part of a registration request is built exactly if its closed-form length is at most 1000 |
| WireFormat.AllowListBuildSucceedsExactly | src/serialize.c:1840-1861 | so is an allow list |
| WireFormat.OuterFits | src/rp.c:819-875 | once the secret part was built, the registration request around it fits for names of at most 256 bytes |
| Encoding.DecodeBase64String | src/encoding.c:25-48 | the decoder with its padding correction; the empty string is an error |
| Encoding.BlockRoundTrip | src/encoding.c:35-45 | decoding a block encoding gives the bytes and a zero for every padding character |
| Encoding.Base64RoundTrip | src/encoding.c:3-48 | decoding undoes encoding exactly for non-empty input |
| Encoding.UrlEncodeBytes | src/encoding.c:50-71 | substitution and trimming in place give the text of section 5 of RFC 4648 without padding |
| Encoding.UrlDecodeString | src/encoding.c:73-117 | the decoder for any text, with substitution and restored padding |
| Encoding.UrlTextIsUrlSafe | src/encoding.c:54-69 | only letters, digits, '-' and '_', and never one character left over |
| Encoding.UrlRoundTrip | src/encoding.c:50-117 | decoding undoes URL-safe encoding exactly for non-empty input |
| Encoding.Alphabets | src/encoding.c:50-117 | the characters of both alphabets, as in tables 1 and 2 of RFC 4648 |
| Encoding.SameNumber | src/encoding.c:3-24 | four sextets are the same number as the bytes they stand for |
| Encoding.Examples | src/encoding.c:3-24 | the examples of section 10 of RFC 4648 |
| Padding.BitPadding | src/common.c:337-359 | names of 1 to 255 bytes are padded to 256, any other length leaves the buffer alone |
| Padding.RemoveBitPadding | src/common.c:361-381 | the downward scan finds the marker; the length is 0 on failure, and name and terminator are written only on success |
| Padding.UnpadPad | src/common.c:337-381 | removing the padding gives back every name, also one with 0x80 or 0x00 in it |
| Padding.PadUnpad | src/common.c:361-381 | a block is accepted exactly if it is the padding of some name, and then it is the padding of the result |
| Padding.GetMessageIv | src/common.c:383-403 | the vector of the four encrypted message types and an error for any other |
| Padding.PaddingExactly | src/common.c:337-381 | a block is the padding of a name, and yields that name, exactly if it is the name, the byte 0x80 and zeros up to 256 bytes |
| Padding.VectorText | src/common.c:383-403 | the vectors are the text "messagetype" with the digit 3, 4, 7 or 8 |
| Padding.MessageIvsDiffer | src/common.c:383-403 | different message types never share a vector |
| AuthenticatorData.ParseAuthData | src/rp.c:221-302 | the offset moves over hash, flags, counter and attested data as the layout says |
| AuthenticatorData.ParseLayout | src/rp.c:221-302 | every well-formed structure is parsed back from its layout |
| AuthenticatorData.LayoutParse | src/rp.c:253-300 | re-serialising an accepted input gives the input back, and the result is well formed |
| AuthenticatorData.ParseExactly | src/rp.c:258-300 | an input is accepted exactly if it is the layout of something; without bit 6 of the flags exactly 37 bytes are |
| AuthenticatorData.ParsedFields | src/rp.c:221-302 | byte by byte, what is accepted and what is found: hash, flags, counter in two's complement, and with bit 6 identifier, length, credential id and key |
| Domain.IsEqualOrRegistrableDomainSuffix | src/ud.c:183-243 | lower-casing loops and comparison; the character in front of the suffix is only looked at when there is one |
| Domain.AcceptsLabels | src/ud.c:214-237 | accepted exactly if the names differ at most in the case of letters, or the labels of the suffix are, up to case, the last labels of the host and not all of them, and its variant without capitals is not public |
| Domain.CaseDoesNotMatter | src/ud.c:206-212 | changing the case of any letter of either name never changes the answer |
| Domain.EquallyLong | src/ud.c:214-217 | of equally long names one suits the other exactly if they are case variants |
| Domain.LowerExactly | src/ud.c:206-212 | the name that is looked up in the suffix list is the only case variant without capitals |
| Store.Database.GetUserId | src/persistence.c:59-82 | the id stored with a name, if any |
| Store.Database.GetCredential | src/persistence.c:84-143 | the credential with that id and owner, if any |
| Store.Database.GetCredentialDescriptors | src/persistence.c:178-228 | the list grown row by row, or an error for a row of another type |
| Store.Database.AddCredential | src/persistence.c:230-307 | the new tables in every case, also when the user row stays although the credential is refused |
| Store.Database.UpdateCount | src/persistence.c:145-177 | only the counter of that credential changes |
| Store.ChosenExactly | src/persistence.c:178-228 | the list holds exactly the ids of that user at that relying party |
| Store.AddCredsKeeps | src/persistence.c:230-307 | uniqueness and ownership survive every insertion, successful or not, and old rows stay as they are |
| Store.UpdateKeeps | src/persistence.c:145-177 | a counter update keeps them too |
| Store.NamesAndIdsCorrespond | src/persistence.c:31-34 | user names and user ids are in bijection |
| Store.FoundByName | src/persistence.c:59-82 | every stored user is found by name |
| Store.FoundByCredId | src/persistence.c:84-143 | every stored credential is found by owner and id |
| Store.SecondRegistrationOfNameFails | src/persistence.c:245-267 | of two contexts that race for a new name with new ids only the first gets it, and the other leaves no trace |
| Environment.DecryptEncrypt | src/common.c:68-204 | under one key decryption gives back what was encrypted, and 16 bytes are added |
| Helpers.EncryptMessage | src/common.c:68-134 | the ciphertext under the message type's vector, or an error for a bad key length or type |
| Helpers.DecryptMessage | src/common.c:136-204 | the plaintext under the message type's vector, or an error |
| ServerContext.InitRpData | src/rp.c:34-140 | there is a context exactly if both names are given and the ticket decodes, and it starts in the initial state |
| ServerContext.RpData.CheckClientData | src/rp.c:479-603 | type, origin, crossOrigin and challenge, in that order, and the assertion in front of them |
| ServerContext.RpData.CheckAuthData | src/rp.c:605-659 | hash, signed counter comparison and user verification |
| ServerContext.RpData.MakePreResponse | src/rp.c:673-708 | an ephemeral id and the key derived from it are sent, and neither is kept |
| ServerContext.RpData.MakeRegRequest | src/rp.c:710-763 | challenge and user id, looked up or new, are kept even if the rest fails |
| ServerContext.RpData.MakeRegRequestFor | src/rp.c:765-879 | padding, exclusions, encoding, encryption and building, with every failure and assertion |
| ServerContext.RpData.MakeAuthRequest | src/rp.c:882-950 | the request of both ceremonies, with the allow list kept and encrypted in one of them |
| ServerContext.RpData.TakeRegIndication | src/rp.c:976-1044 | the key is derived again and kept even if decryption, decoding, padding or ticket are wrong |
| ServerContext.RpData.TakeAuthIndication | src/rp.c:1075-1137 | the same for the name of a known user |
| ServerContext.RpData.TakeIndication | src/rp.c:952-1145 | which indication is taken in which state |
| ServerContext.RpData.CheckRegistration | src/rp.c:1159-1265 | the credential of a registration response, if client data, policy and attestation are right |
| ServerContext.RpData.TakeRegResponse | src/rp.c:1147-1285 | a verified credential is added and the challenge dropped; the store is closed if adding fails |
| ServerContext.RpData.FindClaimedUser | src/rp.c:1303-1350 | whose credential a response may use, by user handle and allow list |
| ServerContext.RpData.CheckAssertion | src/rp.c:1352-1427 | site, client data, authenticator data, key and signature, and then the new counter |
| ServerContext.RpData.TakeAuthResponse | src/rp.c:1287-1428 | the whole of an authentication response |
| ServerContext.RpData.AddCallback | src/fidossl.c:217-290 | the message and the next state for every context and state |
| ServerContext.RpData.ParseCallback | src/fidossl.c:292-353 | the same for received messages; responses decide between success and failure |
| ServerContext.AddServerExtension | src/fidossl.c:231-237 | without a context for the connection the callback sends nothing, and with one it is the context's callback |
| ClientContext.InitUdData | src/ud.c:30-115 | initial state and ceremony for each mode, and when there is no context; without a pin there never is one |
| ClientContext.UdData.MakeRegIndication | src/ud.c:715-811 | the indication of padded name and ticket under the key |
| ClientContext.UdData.MakeAuthIndication | src/ud.c:870-914 | the indication of the padded user name under the key |
| ClientContext.UdData.TakePreResponse | src/ud.c:978-999 | ephemeral id and key are kept |
| ClientContext.UdData.TakeRegRequest | src/ud.c:1001-1111 | the request is taken over only if the server repeats the name, and assertions on the key come first |
| ClientContext.UdData.TakeAuthRequest | src/ud.c:1113-1189 | challenge, relying party and policies are taken over even if the allow list is then refused |
| ClientContext.UdData.SettleRpId | src/ud.c:916-939 | origin and effective domain from the server name, and which relying party ids suit them |
| ClientContext.UdData.GenerateClientData | src/ud.c:266-294 | the client data of an honest client, or a failed assertion without challenge or origin |
| ClientContext.UdData.MakeRegResponse | src/ud.c:813-860 | the response with the attestation object |
| ClientContext.UdData.MakeAuthResponse | src/ud.c:916-976 | the response with the assertion, if nothing is missing from it |
| ClientContext.UdData.AddCallback | src/fidossl.c:17-141 | the message and the next state for every context and state, skipped calls included |
| ClientContext.UdData.ParseCallback | src/fidossl.c:143-215 | the same for received messages |
| ServerInvariants.AddKeeps | src/fidossl.c:231-280 | making a message keeps what the state promises about the data, leaves the store alone and never fails an assertion |
| ServerInvariants.ParseKeeps | src/fidossl.c:306-346 | so does taking any bytes, and the store keeps its integrity and only grows |
| ServerInvariants.RegRequestNeverAborts | src/rp.c:768-769 | with a name and ids of 64 bytes the assertions on the way to a registration request hold |
| ServerInvariants.RpInvLater | src/rp.c:908-920 | what other contexts do to the store does not break a context's promise, the origin of its allow list included |
| ServerDecisions.ClientDataExactly | src/rp.c:479-603 | client data is accepted exactly if it names the kind of ceremony, the site over https, no other origin and the challenge |
| ServerDecisions.ChallengeAsserted | src/rp.c:482-483 | exactly when the assertion on the challenge fails |
| ServerDecisions.AuthenticationExactly | src/rp.c:1287-1428 | a response is accepted exactly if it may use a stored credential and its client data, authenticator data and signature are right, said of the received bytes |
| ServerDecisions.RegistrationExactly | src/rp.c:1147-1285 | a response is accepted exactly if it attests a new credential that the store can take, and then exactly that row is stored |
| ServerDecisions.RefusalLeaves | src/rp.c:1287-1428 | a refused authentication response changes nothing, except that a missing credential or an unreadable key closes the store |
| ServerDecisions.InsertionFails | src/rp.c:1268-1275 | an attested credential that cannot be inserted closes the store and may leave the new user behind |
| ServerDecisions.IndicationExactly | src/rp.c:976-1044 | an indication is taken exactly if it decrypts, under the key derived from its ephemeral id, to a padded name and the server's ticket; otherwise the state stays |
| ServerDecisions.TicketDecides | src/rp.c:1027-1031 | an honest message with any other ticket is refused |
| ServerDecisions.NameExactly | src/rp.c:1075-1137 | an indication of a server-side authentication is taken exactly if it decrypts to the padded name of a stored user |
| ServerDecisions.DispatchExactly | src/rp.c:952-1145 | which indication is taken in which state, and that any other input is refused without a change of state |
| ServerDecisions.OutcomeExactly | src/fidossl.c:318-346 | a response decides the outcome of the context that waits for it, and any other context refuses it |
| ServerRequests.PreResponseSays | src/rp.c:673-708 | the pre-response carries the drawn id and its keyed hash under the episode key |
| ServerRequests.RegRequestSays | src/rp.c:710-879 | the request carries site, policies and challenge, and encrypted both padded names, the stored or drawn user id and exactly the user's credentials |
| ServerRequests.NamesAsserted | src/rp.c:768-769 | without a name, or with a user id of another length, the assertions fail |
| ServerRequests.AuthRequestSays | src/rp.c:882-950 | the request carries challenge, site and policy, and in the server-side ceremony the encryption of exactly the user's credentials, which are kept |
| ClientDecisions.RegIndicationSays | src/ud.c:715-811 | the indication carries the ephemeral id and, encrypted, the padded display name and the ticket |
| ClientDecisions.AuthIndicationSays | src/ud.c:870-914 | the indication carries the ephemeral id and, encrypted, the padded user name |
| ClientDecisions.RegRequestExactly | src/ud.c:1001-1111 | a request is taken over exactly if its encrypted part repeats, byte by byte, the name that was asked for; otherwise nothing changes |
| ClientDecisions.KeyAsserted | src/ud.c:1013-1014 | exactly when the assertions on the key fail |
| ClientDecisions.AuthRequestExactly | src/ud.c:1113-1189 | a request is accepted exactly if its allow list suits the ceremony |
| ClientDecisions.ValidationExactly | src/ud.c:916-939 | a client answers exactly if there is no relying party id or it suits the server name, by labels and up to case |
| ClientDecisions.RegResponseSays | src/ud.c:813-860 | a response is sent exactly if nothing is missing, with the attestation and client data for challenge and server name |
| ClientDecisions.AuthResponseSays | src/ud.c:916-976 | a response is sent exactly if nothing is missing, with what the authenticator returned |
| ParserLimits.ParsedWithin | src/serialize.c:107-884 | whatever the input, a packet that is read is of the expected type and within the limits on lengths and values |
| ParserLimits.SecretsWithin | src/serialize.c:888-1191 | so are the three inner encodings |
| ParserLimits.RegRequestOutside | src/serialize.c:236-330 | a registration request with an empty or long name, or a challenge of the wrong length, is refused |
| ParserLimits.RegResponseOutside | src/serialize.c:567-644 | so is a registration response with empty or long fields |
| Reference.HeadBytes | src/serialize.c:83-99 | the bytes of a head as in section 3 of RFC 8949 |
| Reference.Examples | src/serialize.c:1264-1301 | examples of items from appendix A of RFC 8949 |
| Reference.PlainMessages | src/types.h:109-122 | type numbers and fields of the messages without options |
| Reference.RegRequestLayout | src/serialize.c:1300-1399 | numbers, keys and order of all fields of a registration request |
| Reference.AuthRequestLayout | src/serialize.c:1443-1504 | the same for an authentication request |
| Reference.AuthResponseLayout | src/serialize.c:1507-1553 | the same for an authentication response |
| Reference.SecretLayouts | src/serialize.c:1577-1666 | the same for the plaintexts |
| Reference.Defaults | src/serialize.c:370-373 | discouraged, preferred and none are 1, 2 and 1 |
| Reference.Texts | src/rp.c:479-603 | the texts of client data in ASCII |
| Reference.ServerOptions | src/rp.c:34-140 | every server option is kept where it belongs |
| Reference.ClientOptions | src/ud.c:30-115 | when there is a client and what it starts with |
| Reference.EncryptsExactly | src/common.c:68-134 | there is a ciphertext exactly for a key of 16, 24 or 32 bytes and one of the four types |
| Reference.DecryptsExactly | src/common.c:136-204 | nothing is decrypted with any other key or type |
| Reference.BuildingExactly | src/serialize.c:1193-1575 | building ends the process exactly if a field that must be there is empty |
| Runs.InitIsFresh | src/rp.c:118-124 | a configured context is a fresh one |
| Runs.RunKeeps | src/fidossl.c:217-353 | in every run every context has the data its state needs and no assertion fails |
| Runs.StoreOnlyGrows | src/persistence.c:230-307 | between any two moments of a run rows are only appended, and id, owner, relying party and key of a credential never change |
| Progress.PerformMoves | src/fidossl.c:238-346 | a step goes up in rank or stays, and a context with an outcome ignores everything |
| Progress.BoundedMoves | src/fidossl.c:217-353 | a context changes state at most five times in any run |
| Progress.OutcomeIsFinal | src/fidossl.c:318-340 | after success or failure nothing in the context ever changes |
| Correspondence.PerformAccounted | src/rp.c:1147-1428 | a step to registration success adds one certified credential, one to authentication success sets one counter, any other changes no credential |
| Correspondence.RegistrationBinds | src/rp.c:1159-1269 | every registered row is that of a response in the input whose direct attestation, for this site, these policies, this client data and this challenge, verifies, with the key in its authenticator data |
| Correspondence.ProofBinds | src/rp.c:1303-1416 | a response in the input is accepted with a credential exactly if challenge, origin, type, site hash, counter, user verification bit, user handle, allow list and the signature over the received bytes are right |
| Correspondence.Provenance | src/rp.c:1268-1275 | every credential in the store was put there by an earlier registration success |
| Correspondence.AuthenticationCorrespondence | src/rp.c:1287-1428 | every step to authentication success traces back to a registration success with the same credential; both are bound, on the received bytes, to their contexts |
| Admission.RegistrationNeedsTicket | src/rp.c:976-1044 | in any run a context that registers or has registered was shown its ticket before, and key and name stem from that indication |
| Admission.LoginNeedsName | src/rp.c:1075-1137 | in any run a context in the server-side ceremony was shown the name of the stored user with its user id |
| Correspondence.ChallengeWasSent | src/rp.c:882-895 | the challenge a context compares with is the one it drew for a request it sent, and whoever parses the bytes that were sent reads that challenge |
| Correspondence.CountersGrow | src/persistence.c:145-177 | no step lowers a stored counter, as a signed number |
| Correspondence.SignedCountersIncrease | src/rp.c:629-637 | of two logins with one credential the later has the larger signed counter |
| Correspondence.UnsignedCountersIncreaseExactly | src/rp.c:253-254 | as unsigned numbers they increase exactly if they do not go from the upper half of the range to the lower |
| Correspondence.CounterMonotonicity | src/rp.c:1418-1419 | if all registration counters are below 2^31, accepted counters strictly increase as unsigned numbers |
| RoundTrip.ChallengeOnTheWire | src/serialize.c:645-672 | any reader of a built authentication request finds its challenge, whatever the optional fields are |
| Correspondence.LargeCounterIsOvertaken | src/rp.c:629-637 | a stored counter of 2^31 lets a counter of 0 pass |
| ClientInvariants.InitKeeps | src/ud.c:66-95 | every client that is configured satisfies its invariant, with or without a user name |
| ClientInvariants.ClientKeeps | src/ud.c:266-273 | every step keeps the client's invariant, and the process ends exactly if challenge or origin are missing when a response is made, or if a server-side authentication is offered without a user name |
| ClientInvariants.EmptyChallengeEnds | src/ud.c:266-273 | a client configured for discoverable credentials accepts a request of three bytes with an empty challenge, and ends when it responds |
| ClientInvariants.NamelessClientEnds | src/ud.c:889-890 | a client configured for server-side credentials without a user name ends at its second ClientHello, whatever pre-response it took |
| ClientInvariants.AuthResponseAborts | src/ud.c:916-945 | the exact condition: neither relying party nor server name, or an empty challenge with an acceptable relying party |
| ClientInvariants.RegRequestKeeps | src/ud.c:1001-1111 | the assertions on the key in front of decryption never fail |
| Session.RanksGrow | src/fidossl.c:17-353 | in any run of one client and one server context both only move forwards |
| Session.ClientBoundedMoves | src/fidossl.c:17-215 | a client changes state at most five times in any run |
| Session.ResponseIsFinal | src/fidossl.c:123-129 | after its response nothing in a client changes, and it sends nothing more |
| Session.ClientSendsSealed | src/ud.c:784-912 | an indication of type 3 or 7 carries a ciphertext under the client's key and the type's vector, and moves the client on |
| Session.ServerSendsSealed | src/rp.c:827-949 | a request of type 4 or 8 does so for the server |
| Session.NoPairReused | src/common.c:383-403 | no two ciphertexts of such a run share key and initialisation vector |
| Session.ClientRunKeeps | src/fidossl.c:17-215 | the client's data suits its state throughout such a run |
| Lockstep.InOrderOnCourse | src/fidossl.c:35-353 | after any number of successful callbacks in order the pair of states is the one the ceremony's table names, so a run has at most 11 callbacks (6 for discoverable credentials) and ends with both sides done |
| Lockstep.NoInvalidState | src/fidossl.c:38-134 | in such a run no callback reaches its default branch before the outcome, the Certificate callback after the pre-handshake and its second call included |
| Lockstep.UnhandledFails | src/fidossl.c:95-99 | a callback that reaches its default branch fails |
| Lockstep.SkippedCalls | src/fidossl.c:31-33 | other extensions, and the calls a side has no use for, are skipped without any change |
| Lockstep.MisplacedCalls | src/fidossl.c:135-139 | in any other TLS message the extension is an error without any change |
| Honest.PreHandshake | src/fidossl.c:123-129 | the first handshake hands over id and key, and the Certificate callback is skipped |
| Honest.ClientDataAccepted | src/rp.c:479-603 | the server finds in honest client data everything it looks for |
| Honest.ServerNameMustBeRpId | src/rp.c:534-551 | honest client data is taken exactly if the server name is the relying party id |
| Honest.RegRequestExchanged | src/ud.c:1001-1111 | after the request both ends agree on key, challenge, relying party, name and user id, and the client knows what to exclude |
| Honest.RegistrationHandshake | src/fidossl.c:318-329 | the second handshake ends in success on both sides and stores the credential |
| Honest.ConfiguredForRegistration | src/ud.c:30-115 | client and server configured with one ticket in base64, a good name and readable texts are ready for an honest registration |
| Honest.HonestRegistration | src/fidossl.c:35-353 | two handshakes register a user from the first ClientHello on |
| Honest.ServerSideHandshake | src/rp.c:1287-1428 | the second handshake with server-side credentials ends in success, with one allow list on both sides |
| Honest.HonestServerSideAuthentication | src/fidossl.c:35-353 | two handshakes authenticate a known user |
| Honest.DiscoverableHandshake | src/fidossl.c:76-85 | one handshake authenticates with a discoverable credential |
| Honest.RegisterThenAuthenticate | src/rp.c:1147-1428 | over the store an honest registration leaves, new contexts authenticate with the registered credential |
| Honest.RegisterThenDiscover | src/rp.c:1147-1428 | so they do with a discoverable credential, in one handshake |
| Embedding.HandshakeIsRun | src/fidossl.c:217-353 | what the server does in any handshake of an honest client is a run of its context, so all results about runs apply to it |
| Embedding.LoginFollows | src/rp.c:1287-1428 | a handshake that ends in authentication goes on with any run, and its last event is a login with a stored credential |
| Embedding.RegistrationFollows | src/rp.c:1147-1285 | likewise for a handshake that ends in registration |
| Witness.LibrariesAreLawful | src/common.c:68-204 | there are a cipher, hashes and a JSON text format that satisfy all the laws the honest runs assume |
| Witness.UserRegistersAndReturns | src/fidossl.c:17-353 | from the options of both sides on, for every good name, site, ticket and all random numbers: registration from an empty store, then server-side authentication by new contexts with any larger counter |
| Witness.UserRegistersAndIsFound | src/fidossl.c:17-353 | the same with a discoverable credential on the second visit |
| LargeCounter.CounterIsOvertaken | src/rp.c:629-637 | there is a run from an empty store that registers a credential with counter 2^31 and accepts logins with 2^31 + 1 and then 0 |

## Left out

- Parser.CborParse: items of indefinite length, tags and floating-point or simple values are refused by the model, and so is every input on which TinyCBOR reports an error that the C parser ignores, such as a truncated string or an integer beyond the range of `int`.
- Parser.CborParse: where the C parser copies a text with an embedded NUL, only the part in front of it is kept, because every later use is as a C string; for client data, whose length is kept, all of it is.
- Encoding.DecodeBase64String: the white space that `EVP_DecodeBlock` skips around the text is not modelled.
- AuthenticatorData.ParseAuthData: inputs that end inside a fixed field are refused; the C code reads past them.
- ServerContext.RpData.TakeAuthIndication: a decrypted name shorter than 256 bytes is refused; the C code reads past it.
- Helpers.DecryptMessage: a ciphertext shorter than its tag is refused by the law of the cipher; the C code reads before it.
- ClientContext.UdData.MakeAuthResponse: what a failed authenticator call leaves in the output fields of the struct is not modelled; these fields are written again before they are read.
- ServerContext.RpData.TakeRegResponse: without user id or user name, which no reachable state lacks, the model refuses at once.
- ClientContext.UdData.AddCallback: callbacks of a client for which there is no context are not modelled; the C code dereferences a null pointer there.
- Session.NoPairReused: it is about one client and one server context; a server that is sent one ephemeral id by several clients is not covered.
- Honest.HonestRegistration: what the libraries do is assumed as laws (decryption inverts encryption, client data of plain text is read as written), and the authenticator as one whose attestation verifies; `Witness` shows that this can be met.
- OpenSSL, libfido2, jansson, SQLite and libpsl are functions with laws, a four-field record, two tables and a predicate; signature and attestation verification are arbitrary functions of what is passed to them.
- Every callback is one step; contexts of one process are not interleaved inside a callback, and all contexts of a run exist from its start.
- Failures of memory allocation and of the random number generator, freeing of memory, and use of a closed database handle (which no reachable state allows) are not modelled.
- `create_fido_cred_t`, `create_fido_assert_t` and `run_ctap` are replaced by an arbitrary result of the authenticator.
- `parse_cose_key`, `get_public_key`, `extract_authdata_from_attobj` and `cbor_build_attestation_object` are thin layers over library types and are left out.
- Sockets, certificates, key logging, `ex_data`, debug output, name tables and `hex_to_u8` are left out.
