# A verified model of the mobile phone core

The directory `mediastreamer2.root/mobilePhone` is a C++ port of the linphone core: a SIP phone that negotiates media,
keeps its settings in an INI file, and runs one call at a time. This project models its decision-making parts in Dafny
and proves what they promise, over every input and every run.

`dafny verify dfyconfig.toml` verifies the whole project.

| file | models |
|---|---|
| `Text.dfy` | the C string functions the rest relies on: `strchr`, `sscanf "%s"`, `atoi`, `"%i"`, `strcasecmp`, `strstr` |
| `Store.dfy`, `IniText.dfy`, `Configure.dfy` | `Configure.cpp`: sections and items, their text form, the object with its edit counter and file |
| `Friends.dfy`, `Credentials.dfy` | the contact list (`Friend.cpp`) and the credential list (`Private.cpp`), and their numbered sections |
| `Bandwidth.dfy`, `Rtp.dfy`, `CodecTable.dfy` | bandwidth arithmetic, RTP profile searches, and the assembly of the codec lists (`Misc.cpp`, `Private.h`, oRTP's `payloadtype.c`) |
| `Sdp.dfy`, `Answers.dfy` | SDP offer/answer (`SdpHandler.cpp`) for any table of callbacks |
| `Codecs.dfy`, `Negotiation.dfy`, `CallMedia.dfy` | the phone's own callbacks (`Events.cpp`), what they guarantee, and the call object |
| `Outlooks.dfy`, `Agreement.dfy` | the outcome of an answer foretold from settings and offer, and two endpoints composed |
| `CallMachine.dfy`, `CallOutcomes.dfy`, `PhoneCore.dfy` | call control, what every event does to a call, and the object (`Events.cpp`, `LinphoneCore.cpp`, `GeneralState.cpp`, `PhoneCore.cpp`) |

Each imperative part comes twice: as a class or a method with the loops and updates of the original, and as a function
on values that its `ensures` names. The properties are lemmas about those functions.

Six promises do not hold of the code as it stands; for each the exact condition is proved, and an input that fails.

- An answer lines up with its offer exactly when every offered line is audio or video (`Answers.AnswerAligned`). A line
  of another medium gets no answer line, and from there on the indexed appends are lost: the answer to a later line is
  empty exactly when such a line comes before it (`Answers.LostAfterOtherMedium`, `Answers.ThirdMediumMisaligns`).
- A line with a common codec need not announce a port. Whether it does is foretold from the settings and the offered
  payloads: some payload must lead to an enabled, usable codec, and none before it to telephone events
  (`Outlooks.LineLiveIff`, `Outlooks.EventsFirstSilenceTheLine`). An offer of this phone itself has its telephone events
  last, so that there a common codec is enough (`Agreement.OwnLineLiveIff`, `Agreement.AudioAgreement`).
- A refused line still settles the reader's stream, on port 0, exactly when the reader's slot 0 is enabled
  (`Agreement.RefusedLineSettlesReader`, `Agreement.RefusalSettlesPlainReader`).
- The call state is idle exactly when there is no call, except after a 380 redirect, which drops the call without
  telling the state, and after `linphone_core_terminate_call`, which leaves `lc->call` on the destroyed record
  (`CallMachine.StepRestsIff`, `CallMachine.RedirectLeavesStateBehind`, `CallMachine.TerminateLeavesReference`). A 302
  redirect repairs the state, because it places a new call at once. After a termination the phone never makes or takes a
  call again (`CallMachine.AfterHangUp`, `CallMachine.HangUpIsFinal`).
- Writing the contact list makes the numbered sections read back as the list exactly when clearing the section after
  the last leaves no readable second one (`Friends.WriteMirrors`, `Friends.DoubledSectionReturns`). The phone itself never
  doubles a section, so this depends on the file it started from (`Friends.WriteKeepsOneEach`).
- A codec that fits the bandwidth test fits both limits, except when one setting is 0 ("no limit"), which hides the
  other (`Bandwidth.AudioFitsIff`, `Bandwidth.ZeroHidesTheOtherLimit`).

## Model

Where a row models what `LinphoneCore.cpp` defines, it cites the place that calls it and names its own lines beside it.
`PhoneCore.Phone.Accept`, which no other file calls, follows `linphone_core_accept_call` (lines 1177-1238 there): it
answers a call that is not running yet with 200.

| member | source | states |
|---|---|---|
| IniText.RoundTripIff | mediastreamer2.root/mobilePhone/Configure.cpp:123-181 | for every store whatsoever, printing it and parsing the text gives the same store, duplicates and order included, exactly when the store is well formed; well-formedness covers the blank, bracket and buffer-length cases of the line parser |
| IniText.NormalForm | mediastreamer2.root/mobilePhone/Configure.cpp:123-181 | a text of whole lines that fit the buffer, without NUL and without a bracket led by other white space than blanks, loads into a well-formed store, so load, save and load again changes nothing |
| IniText.ItemEventsIdeal | mediastreamer2.root/mobilePhone/Configure.cpp:150-176 | a printed item is read back as itself exactly when its key does not start with a bracket and its value is not empty and not trimmed, or the line fills the buffer exactly |
| IniText.EventsOfPrint | mediastreamer2.root/mobilePhone/Configure.cpp:283-291 | reading printed text in buffers of 1023 characters meets one header per section and one line per item, in order |
| IniText.ParseIsParsed | mediastreamer2.root/mobilePhone/Configure.cpp:129-180 | whatever the file holds, parsed names, keys and values are free of the characters and lengths the parser cannot produce |
| IniText.PrintedForm | mediastreamer2.root/mobilePhone/Configure.cpp:283-291 | a section is printed as its name in brackets, its items as key=value, and a blank line |
| IniText.SpacedPair | mediastreamer2.root/mobilePhone/Configure.cpp:150-176 | of a hand-written line, white space before the key, further words after it and blanks after the value do not count, and what comes before the value does |
| IniText.SpacedHeader | mediastreamer2.root/mobilePhone/Configure.cpp:131-149 | of a hand-written header, blanks before it, white space before the name and all that follows the name do not count |
| IniText.UnclosedHeader | mediastreamer2.root/mobilePhone/Configure.cpp:132-150 | a bracket that is not closed yields nothing, even with an equals sign behind it |
| IniText.EmptyValue | mediastreamer2.root/mobilePhone/Configure.cpp:159-176 | a key without value is dropped on a whole line and kept, with an empty value, at the end of a file |
| IniText.OtherLine | mediastreamer2.root/mobilePhone/Configure.cpp:129-180 | a line with neither bracket nor equals sign yields nothing |
| IniText.ChunkIs | mediastreamer2.root/mobilePhone/Configure.cpp:124-129 | a buffer takes a line with its newline, and at most 1023 characters |
| Configure.Config.constructor | mediastreamer2.root/mobilePhone/Configure.cpp:16-37 | opening an existing file loads its parse and starts with nothing to commit; otherwise the store is empty and the counter is whatever the memory held |
| Configure.Config.ParseFile | mediastreamer2.root/mobilePhone/Configure.cpp:123-181 | the buffer-by-buffer loop with its current section computes the parse of the file |
| Configure.Config.ScanLine | mediastreamer2.root/mobilePhone/Configure.cpp:129-180 | the body of that loop yields the event of one buffer |
| Configure.Config.TrimTail | mediastreamer2.root/mobilePhone/Configure.cpp:160-167 | the backward loop removes the trailing blanks but never the first character |
| Configure.Config.GetValue | mediastreamer2.root/mobilePhone/Configure.cpp:230-239 | the two searches return the first match or the default |
| Configure.Config.SetValue | mediastreamer2.root/mobilePhone/Configure.cpp:255-274 | replaces, appends or removes in the first section of the name, creates the section only for a value, and counts one edit |
| Configure.Config.SetNumber | mediastreamer2.root/mobilePhone/Configure.cpp:276-281 | stores the decimal text and counts two edits |
| Configure.Config.CleanSection | mediastreamer2.root/mobilePhone/Configure.cpp:316-322 | removes the first section of the name only, and counts one edit even when there is none |
| Configure.Config.WriteSection | mediastreamer2.root/mobilePhone/Configure.cpp:283-291 | writes the header, the items and the blank line of one section |
| Configure.Config.Commit | mediastreamer2.root/mobilePhone/Configure.cpp:293-309 | writes the whole store and clears the counter, or fails and changes nothing |
| Configure.StepKeepsSync | mediastreamer2.root/mobilePhone/Configure.cpp:293-326 | a call keeps "no commit needed means the file parses to the memory" exactly when it does not write an ill-formed store |
| Configure.NeedsCommitIff | mediastreamer2.root/mobilePhone/Configure.cpp:255-326 | over every run from an opened file, a commit is needed exactly when something was set or cleaned since the last successful write |
| Configure.CleanMeansInSync | mediastreamer2.root/mobilePhone/Configure.cpp:255-326 | over every run of set, clean and sync that writes only well-formed stores, no commit needed means the file parses to the sections in memory |
| Configure.NextStartReadsLastWrite | mediastreamer2.root/mobilePhone/Configure.cpp:293-309 | after any run and a final write, the next start reads the same store exactly when it is well formed |
| Store.GetStringIsLookup | mediastreamer2.root/mobilePhone/Configure.cpp:230-239 | get_string is lookup in the nested map of first matches |
| Store.SetRefinesUpdate | mediastreamer2.root/mobilePhone/Configure.cpp:255-274 | setting a value is update of the nested map, on every store, duplicates or not |
| Store.RemoveRefinesRemoval | mediastreamer2.root/mobilePhone/Configure.cpp:255-274 | setting NULL removes the key from the nested map exactly when the section lists it at most once |
| Store.CleanRefinesRemoval | mediastreamer2.root/mobilePhone/Configure.cpp:316-322 | cleaning removes the section from the nested map exactly when the name occurs at most once |
| Store.UpdatesKeepUnique | mediastreamer2.root/mobilePhone/Configure.cpp:255-322 | set and clean keep section names and keys unique |
| Store.GetIntAfterSetInt | mediastreamer2.root/mobilePhone/Configure.cpp:241-281 | get_int after set_int returns the integer, negative ones included |
| Store.NamedAfterSet | mediastreamer2.root/mobilePhone/Configure.cpp:255-274 | among the sections of each name, a set changes only the first one of its own name |
| Store.NamedAfterClean | mediastreamer2.root/mobilePhone/Configure.cpp:316-322 | among the sections of each name, a clean drops only the first one of its own name |
| Text.AtoiOfIntToString | mediastreamer2.root/mobilePhone/Configure.cpp:241-281 | atoi undoes "%i" |
| Text.AtoiReads | mediastreamer2.root/mobilePhone/Configure.cpp:241-245 | atoi of a hand-written number: white space before it, a sign, and anything but a digit behind it |
| Text.SpaceCodes | mediastreamer2.root/mobilePhone/Configure.cpp:140 | white space is the blank and the control characters 9 to 13 |
| Text.SameIgnoringCaseIff | mediastreamer2.root/mobilePhone/Misc.cpp:250-267 | two names are the same ignoring case exactly when they are so letter by letter |
| Friends.WriteMirrors | mediastreamer2.root/mobilePhone/Friend.cpp:757-766 | after writing the list, reading numbers 0, 1, 2, .. until the first miss gives exactly the list in order, whatever older sections held, exactly when clearing the section after the last leaves no readable second one |
| Friends.DoubledSectionReturns | mediastreamer2.root/mobilePhone/Friend.cpp:757-766 | two sections of one number in an older file: writing the empty list leaves one readable contact |
| Friends.WriteKeepsOneEach | mediastreamer2.root/mobilePhone/Friend.cpp:757-766 | writing the list never doubles a numbered section, so the condition of the mirror holds again for the next write |
| Friends.WriteThenRead | mediastreamer2.root/mobilePhone/Friend.cpp:678-755 | a written contact reads back with its address, policy, subscription flag and proxy, a proxy that is not listed being lost |
| Friends.NewSectionForm | mediastreamer2.root/mobilePhone/Friend.cpp:730-755 | what is written where no section of the number was: friend_i with the address, the policy by name, 1 or 0, and the position of the proxy or -1 |
| Friends.PolicyWords | mediastreamer2.root/mobilePhone/Friend.cpp:659-671 | only accept and deny are policies of their own, and every other text means to wait |
| Friends.BareSectionReads | mediastreamer2.root/mobilePhone/Friend.cpp:678-712 | a section with nothing but an address reads as a contact that waits, is not subscribed to and has no proxy |
| Friends.ListedProxyIsKept | mediastreamer2.root/mobilePhone/Friend.cpp:673-676 | nothing at all is lost exactly when the proxy is listed |
| Friends.RestartRestores | mediastreamer2.root/mobilePhone/Friend.cpp:678-766 | written into a well-formed store, saved to a file and read by the next start, the contact list comes back whole, provided each printed address survives in the file and each proxy is listed |
| Friends.ContactList.WriteFriendsConfig | mediastreamer2.root/mobilePhone/Friend.cpp:757-766 | the loop writes every contact at its index and clears the next number, and writes nothing before the core is ready |
| Friends.ContactList.AddFriend | mediastreamer2.root/mobilePhone/Friend.cpp:639-646 | appends and rewrites the sections, or refuses a contact already listed or without address; keeps the mirror: once the core is ready the sections read back as the list |
| Friends.ContactList.RemoveFriend | mediastreamer2.root/mobilePhone/Friend.cpp:648-655 | removes that record and rewrites the sections, or changes nothing; keeps the mirror |
| Friends.ContactList.LoadFriends | mediastreamer2.root/mobilePhone/Friend.cpp:678-712 | the start-up loop over these reads (`LinphoneCore.cpp:358-366`) ends and lists exactly what the numbered sections read back as, without writing |
| Friends.ContactList.Start | mediastreamer2.root/mobilePhone/PhoneCore.cpp:108-112 | the contacts are read before the core is ready, and the mirror holds from then on |
| Credentials.MatchesIsEquivalence | mediastreamer2.root/mobilePhone/Private.cpp:99-137 | matching is reflexive, symmetric and transitive |
| Credentials.QuotesDoNotMatter | mediastreamer2.root/mobilePhone/Private.cpp:106-130 | two realms match exactly when they are equal, however each is quoted |
| Credentials.MatchesIff | mediastreamer2.root/mobilePhone/Private.cpp:99-137 | an entry is the one asked for exactly when the realm, quotes aside, and the user name are the same |
| Credentials.AddKeepsDistinct | mediastreamer2.root/mobilePhone/Private.cpp:161-184 | adding keeps the entries pairwise non-matching |
| Credentials.FindIsExact | mediastreamer2.root/mobilePhone/Private.cpp:147-159 | in such a list the exact match is unique and found; without one the first entry of the realm is found, or none |
| Credentials.QuotedRealmIsFound | mediastreamer2.root/mobilePhone/Private.cpp:147-159 | a quoted challenge finds the entry stored without quotes, and the other way round |
| Credentials.QuotedRealmIsReplaced | mediastreamer2.root/mobilePhone/Private.cpp:161-184 | adding such an entry again, quoted or not, replaces it |
| Credentials.ReindexingIsExact | mediastreamer2.root/mobilePhone/Private.cpp:190-206 | after a removal each remaining entry has exactly one section at its new index, which reads back as the entry, and the old indices beyond are gone; doubled sections are tolerated where an entry is rewritten |
| Credentials.ReindexingElsewhere | mediastreamer2.root/mobilePhone/Private.cpp:190-206 | sections of any other name are left alone |
| Credentials.AuthList.FindInfo | mediastreamer2.root/mobilePhone/Private.cpp:147-159 | the two passes over the list compute that search |
| Credentials.AuthList.AddInfo | mediastreamer2.root/mobilePhone/Private.cpp:161-184 | replaces the matching record or appends, and lowers the suspension counter when it is positive |
| Credentials.AuthList.RemoveInfo | mediastreamer2.root/mobilePhone/Private.cpp:190-206 | unlinks that record and rewrites the numbered sections |
| Credentials.AuthList.FindOrAsk | mediastreamer2.root/mobilePhone/Private.cpp:259-268 | asks the user exactly when nothing is known or what is known was tried before and never worked, and marks the entry as tried |
| Bandwidth.AudioBandwidthBounds | mediastreamer2.root/mobilePhone/Misc.cpp:175-182 | the bandwidth of an audio codec exceeds its bitrate by more than 15600 and at most 16000 bit/s |
| Bandwidth.AudioBandwidthMonotone | mediastreamer2.root/mobilePhone/Misc.cpp:175-182 | a larger bitrate never needs less bandwidth |
| Bandwidth.AudioFitsIff | mediastreamer2.root/mobilePhone/Misc.cpp:209-232 | an audio codec is usable exactly when it fits both limits on their own, or one setting is 0 and hides a positive other one |
| Bandwidth.MinBandwidthDecides | mediastreamer2.root/mobilePhone/Private.h:46-56 | the smaller of two limits, of which a negative one is none, is the one that decides |
| Bandwidth.SplitConserves | mediastreamer2.root/mobilePhone/Misc.cpp:184-189 | in the split made here (`LinphoneCore.cpp:379-399`), audio gets what its codec needs as far as the setting goes, and audio, video and a margin of 10 make up the setting unless video gets nothing; a setting of 0 leaves both unlimited |
| Bandwidth.ShareIsUnique | mediastreamer2.root/mobilePhone/Misc.cpp:184-189 | there is only one such split |
| Codecs.AllocationDominates | mediastreamer2.root/mobilePhone/Misc.cpp:191-206 | the audio share allocated covers every enabled audio codec |
| Codecs.AllocationShares | mediastreamer2.root/mobilePhone/Misc.cpp:184-189 | an allocation shares each setting out in its own direction, download for receiving and upload for sending, for the codec's bandwidth in whole kbit/s |
| Codecs.AllocateLargestShares | mediastreamer2.root/mobilePhone/Misc.cpp:191-206 | the same before a call, as soon as one audio codec is enabled |
| Codecs.VideoTuned | mediastreamer2.root/mobilePhone/Misc.cpp:209-248 | a video codec is usable unless a video share is 0, and gets the smaller share that is set, or 1500000 bit/s |
| Codecs.SendBitrateIsALimit | mediastreamer2.root/mobilePhone/Events.cpp:155-168 | the bitrate for sending is one of the two limits and within both; without limits audio is unbounded and video keeps its own |
| Codecs.CallCodecFormat | mediastreamer2.root/mobilePhone/Events.cpp:169-181 | the clone sends by the peer's format parameters where given, ours otherwise, followed by the packet time the peer asked for |
| CodecTable.TableIsComplete | mediastreamer2.root/mobilePhone/Misc.cpp:313-378 | the two lists together hold no slot twice, and hold a slot exactly when it is one of the first 127 and was claimed for the configuration or can be run; the slots claimed form one block of each list |
| CodecTable.AddedSlots | mediastreamer2.root/mobilePhone/Misc.cpp:328-369 | a slot listed beyond the configuration is of the medium of its list, can be run, and is enabled and described |
| CodecTable.ListInOrder | mediastreamer2.root/mobilePhone/Misc.cpp:338-369 | speex, MPEG-4 and H264 are put in front of the claimed block, the last found first, and the others behind it in order |
| CodecTable.ClaimedSlotIsBest | mediastreamer2.root/mobilePhone/Misc.cpp:250-309 | a configured codec claims the first free slot with its format parameters, the last free one of its name and rate without such, and none when there is none or it cannot be run |
| CodecTable.BlockedIff | mediastreamer2.root/mobilePhone/Misc.cpp:268-280 | H264 without packetization mode is left out with an encoder that is x264 but does not slice |
| CodecTable.FixKeepsOrder | mediastreamer2.root/mobilePhone/Misc.cpp:282-309 | the claimed slots follow the order of the configuration, each serves its configured codec by name and rate, is enabled as configured and described by its encoder |
| CodecTable.FixClaims | mediastreamer2.root/mobilePhone/Misc.cpp:250-309 | a slot is claimed at most once, never one that was claimed before, and nothing but descriptions and enabled flags changes |
| CodecTable.AddedOnce | mediastreamer2.root/mobilePhone/Misc.cpp:328-369 | the second pass lists every unclaimed supported slot of the medium once, favourites apart from the others |
| CodecTable.CodecLists.FixCodecList | mediastreamer2.root/mobilePhone/Misc.cpp:282-309 | the loop claims and lists those slots |
| CodecTable.CodecLists.SetupLocalProfile | mediastreamer2.root/mobilePhone/Misc.cpp:313-376 | both passes leave the claimed block in the middle, favourites in front and the rest behind |
| Rtp.SearchSlot | mediastreamer2.root/mobilePhone/Events.cpp:204-220 | the loop with its candidate variable returns the first exact slot, else the last candidate, else -1 |
| Rtp.BestSlotIsUnique | mediastreamer2.root/mobilePhone/Misc.cpp:250-267 | that answer is unique |
| Rtp.H264KeepsMode | mediastreamer2.root/mobilePhone/Events.cpp:185-203 | the peer is answered with the first H264 slot of the packetization mode it asked for, and with the last of that rate only when there is none of that mode |
| Rtp.FmtpValueIs | mediastreamer2.root/oRTP/src/payloadtype.c:142-158 | the value of a format parameter runs from its equals sign to the next semicolon, as far as the buffer goes |
| Rtp.NoFmtpValue | mediastreamer2.root/oRTP/src/payloadtype.c:142-158 | parameters without the name give no value |
| Rtp.ModeOneIsAsked | mediastreamer2.root/mobilePhone/Events.cpp:197-199 | packetization-mode=1 among the parameters asks for mode 1 |
| Rtp.ParsePrintedAudio | mediastreamer2.root/oRTP/src/payloadtype.c:200-238 | the rtpmap text of an audio offer parses back to the codec's name and rate, with one channel |
| Rtp.ParseThreeParts | mediastreamer2.root/oRTP/src/payloadtype.c:200-238 | an rtpmap with name, rate and channels yields the three |
| Rtp.RtpmapWithoutRate | mediastreamer2.root/oRTP/src/payloadtype.c:200-238 | an rtpmap without rate stands for 8000 Hz |
| Codecs.AcceptSettles | mediastreamer2.root/mobilePhone/Events.cpp:46-100 | an accept callback leaves the other stream alone, never unsettles a stream, and settles it only on the payload it was given, announcing our port or the one behind the NAT |
| Codecs.SettledRefuses | mediastreamer2.root/mobilePhone/Events.cpp:63-97 | once the stream is settled nothing more is accepted with only_one_codec, and other lines get no codec |
| Codecs.AcceptInserts | mediastreamer2.root/mobilePhone/Events.cpp:107-183 | an accepted number has an entry in the call profile; only that entry changes, within the peer's limit and our upload share |
| Codecs.SetSlotKeepsTable | mediastreamer2.root/mobilePhone/Events.cpp:146 | the call profile never leaves the table of 128, and a number outside it is ignored |
| Codecs.AcceptAnswersOwnFormat | mediastreamer2.root/mobilePhone/Events.cpp:169-172 | the format parameters answered are those of our own codec, the one the peer's rtpmap leads to |
| Codecs.ReadSettles | mediastreamer2.root/mobilePhone/Events.cpp:260-298 | what a payload of an answer does: the first enabled codec settles the stream on the address, ports and number announced, and audio refines the allocation to it; otherwise nothing changes |
| Codecs.ReadInserts | mediastreamer2.root/mobilePhone/Events.cpp:107-183 | a known payload of an answer is entered in the call profile as a clone of our codec, and nothing else is |
| Sdp.AsLimitIsLastAs | mediastreamer2.root/mobilePhone/SdpHandler.cpp:337-340 | the peer's limit is the value of the last b=AS of the line, in any case, and 0 when there is none |
| Sdp.PtimeIsFirst | mediastreamer2.root/mobilePhone/SdpHandler.cpp:81-95 | the packet time is that of the first a=ptime with a number, and 0 when there is none |
| Sdp.AttrValueIsFirst | mediastreamer2.root/mobilePhone/SdpHandler.cpp:48-68 | the text of a payload is that of the first attribute of the field that gives its number one |
| Sdp.LineContents | mediastreamer2.root/mobilePhone/SdpHandler.cpp:173-224 | a line built payload by payload lists their numbers in order, on the first one's port, each with its rtpmap, and the first bandwidth only |
| Sdp.LineFormats | mediastreamer2.root/mobilePhone/SdpHandler.cpp:207-214 | and each with its format parameters |
| Answers.AnswerAligned | mediastreamer2.root/mobilePhone/SdpHandler.cpp:320-554 | whatever the callbacks do, the answer has as many lines as the offer exactly when all are audio or video, and then line by line the same medium and protocol |
| Answers.LostAfterOtherMedium | mediastreamer2.root/mobilePhone/SdpHandler.cpp:366-450 | the answer line of an offered line lists nothing exactly when a line of another medium comes before it, and then has no attribute and no bandwidth either |
| Answers.ThirdMediumMisaligns | mediastreamer2.root/mobilePhone/SdpHandler.cpp:342-553 | an application line before an audio line: one answer line, for audio, that lists nothing |
| Answers.AnswerContents | mediastreamer2.root/mobilePhone/SdpHandler.cpp:342-553 | the verdicts are those of the callbacks; a line with no other medium before it lists, in offer order, exactly the payloads whose callback returned 0, with their offered rtpmap and at most one bandwidth, or is refused with port 0 and payload 0 |
| Answers.StatusIff | mediastreamer2.root/mobilePhone/SdpHandler.cpp:558-568 | the status is 200 exactly when some callback returned 0, and 415 otherwise |
| Negotiation.ScanSettlesOnce | mediastreamer2.root/mobilePhone/SdpHandler.cpp:346-434 | over the payloads of one line, at most one of them announces a port, and it is the one the stream was settled on |
| Negotiation.OneLiveStream | mediastreamer2.root/mobilePhone/Events.cpp:63-99 | over a whole negotiation at most one line per medium has a port; it is the line the stream was settled on and starts with the stream's number |
| Negotiation.ProfileCoversAnswer | mediastreamer2.root/mobilePhone/Events.cpp:107-183 | whatever the call profile held before, as on a re-INVITE: every accepted number of the table has an entry, put there by a callback of this negotiation for that number, a clone of the codec of ours it leads to, with a bitrate that is the last b=AS of the line or the upload share of that moment and within both, video lines offered with port 0 aside; every other entry is as it was |
| Negotiation.UploadSettingRespected | mediastreamer2.root/mobilePhone/Events.cpp:147-168 | once the bandwidth is shared out, no bitrate put in the call profile by an answer exceeds the upload setting, however the shares shift during the negotiation |
| Agreement.AudioAgreement | mediastreamer2.root/mobilePhone/SdpHandler.cpp:238-662 | offer, answer and read-answer composed, from the settings of both phones: when one codec of our list is enabled and fits our limits, and the peer finds a codec by that name and rate that is enabled and fits its own, both ends settle audio on line 0 on one number, an enabled codec of ours that the peer can use, and each sends to the port and address the other announced, RTCP one above |
| Agreement.PlainPhonesAgree | mediastreamer2.root/mobilePhone/SdpHandler.cpp:238-662 | two phones that know PCMU and telephone events come to that agreement: addresses, ports 7078 and RTCP ports 7079 |
| Agreement.StreamAgreement | mediastreamer2.root/mobilePhone/SdpHandler.cpp:238-662 | the same for audio and for video as soon as the peer's callback accepts one of the codecs we offer |
| Agreement.CommonCodecAgrees | mediastreamer2.root/mobilePhone/SdpHandler.cpp:238-662 | the same for audio and for video when the peer can use one of the codecs we offer |
| Agreement.OwnLineLiveIff | mediastreamer2.root/mobilePhone/Events.cpp:46-100 | the line of our own offer gets the peer's port exactly when the peer's stream is open and one of the codecs we offer is one it finds by that text, has enabled and can fit |
| Agreement.AudioLineLists | mediastreamer2.root/mobilePhone/Events.cpp:221-256 | our audio line, all of it: the enabled and usable codecs in list order, then telephone events under the number of their first slot or -1, with their text and 0-11, and our download share as the one bandwidth |
| Agreement.VideoLineLists | mediastreamer2.root/mobilePhone/Events.cpp:931-962 | our video line, all of it: the enabled and usable codecs in list order, each with its own format parameters, and our download share |
| Agreement.PlainPhoneOffers | mediastreamer2.root/mobilePhone/Events.cpp:221-256 | a phone that knows PCMU as 0 and telephone events as 101 offers 0 and 101 |
| Agreement.AnnouncedPortIs | mediastreamer2.root/mobilePhone/Events.cpp:231-232 | the port announced is the audio port for audio and the video port for video, unless the one behind the NAT is known |
| Agreement.LineAgreement | mediastreamer2.root/mobilePhone/SdpHandler.cpp:292-662 | the same for any line of any offer of audio and video lines, video included, when the reader knows the first number answered |
| Outlooks.OutlookHolds | mediastreamer2.root/mobilePhone/Events.cpp:46-183 | after any number of lines, the streams are settled and the bandwidth is shared out as the settings and the offered payloads foretell |
| Outlooks.LineLiveIff | mediastreamer2.root/mobilePhone/Events.cpp:67-99 | for every line of every offer, in a call as the phone is whenever it answers: our port when its stream is still open and a payload leads to an enabled, usable codec ahead of any that leads to telephone events, port 0 otherwise |
| Outlooks.LiveLineBandwidth | mediastreamer2.root/mobilePhone/Events.cpp:86-89 | a live line announces our download share of its medium, as it is with the codec of the line allowed for, as its one b=AS |
| Outlooks.OutlookCore | mediastreamer2.root/mobilePhone/Events.cpp:46-100 | until an audio line settles, lines are judged by the settings as they were |
| Outlooks.EventsFirstSilenceTheLine | mediastreamer2.root/mobilePhone/Events.cpp:67-99 | telephone events offered ahead of PCMU: both accepted, the stream settled, and the line answered with port 0 |
| Agreement.RefusedLineSettlesReader | mediastreamer2.root/mobilePhone/Events.cpp:260-298 | reading a refused line settles the stream, on number 0 and port 0, exactly when slot 0 holds an enabled codec |
| Agreement.RefusalSettlesPlainReader | mediastreamer2.root/mobilePhone/Events.cpp:260-298 | a phone whose slot 0 is PCMU reads the refusal of its audio line and settles on port 0 |
| Agreement.CoherentWhenFirst | mediastreamer2.root/oRTP/src/payloadtype.c:178-238 | a codec is found again through the rtpmap it is offered with exactly when it has at most one channel and no earlier slot of that name and rate comes first |
| Agreement.VideoCoherentWhenFirst | mediastreamer2.root/oRTP/src/payloadtype.c:178-238 | the same for a video codec, which is then also offered under its own number, exactly when no earlier slot has its name and rate |
| Agreement.EventIsNotValid | mediastreamer2.root/mobilePhone/Events.cpp:127-137 | telephone events never settle a stream |
| CallMedia.Call.CheckUsable | mediastreamer2.root/mobilePhone/Misc.cpp:209-248 | tests the bandwidth of an audio codec, and gives a video codec what is left |
| CallMedia.Call.UpdateAllocated | mediastreamer2.root/mobilePhone/Misc.cpp:191-206 | the loop allocates for the largest enabled bitrate, and the shares of both directions are then those of their settings |
| CallMedia.Call.PayloadSupport | mediastreamer2.root/mobilePhone/Events.cpp:107-183 | judges a payload and enters a bounded clone of our codec in the call profile |
| CallMedia.Call.AcceptAudio | mediastreamer2.root/mobilePhone/Events.cpp:46-100 | the audio accept callback, field by field |
| CallMedia.Call.AcceptVideo | mediastreamer2.root/mobilePhone/Events.cpp:963-1015 | the video accept callback, field by field |
| CallMedia.Call.ReadAudio | mediastreamer2.root/mobilePhone/Events.cpp:260-298 | the audio read callback, field by field |
| CallMedia.Call.ReadVideo | mediastreamer2.root/mobilePhone/Events.cpp:1018-1053 | the video read callback, field by field |
| CallMedia.Call.SetAudioOffer | mediastreamer2.root/mobilePhone/Events.cpp:221-256 | the loop builds one audio line in place: usable enabled codecs in list order, then telephone events |
| CallMedia.Call.SetVideoOffer | mediastreamer2.root/mobilePhone/Events.cpp:931-962 | the loop adds one video line when video is enabled and some codec is usable |
| CallMedia.Call.GetOffer | mediastreamer2.root/mobilePhone/SdpHandler.cpp:238-257 | the offer is those lines under our address |
| CallMedia.Call.AnswerPayload | mediastreamer2.root/mobilePhone/SdpHandler.cpp:366-433 | one turn of the payload loop: the indexed appends land on the line just added when the answer is aligned, and are lost otherwise |
| CallMedia.Call.AnswerMedia | mediastreamer2.root/mobilePhone/SdpHandler.cpp:342-450 | the payload loop of one line, or its refusal |
| CallMedia.Call.GetAnswer | mediastreamer2.root/mobilePhone/SdpHandler.cpp:292-569 | the line loop, the counter of accepted lines and the status |
| CallMedia.Call.ReadAnswer | mediastreamer2.root/mobilePhone/SdpHandler.cpp:571-662 | both loops over the answer |
| CallMachine.StepRestsIff | mediastreamer2.root/mobilePhone/Events.cpp:300-832 | from a resting state (idle exactly when there is no call, never END or ERROR, no destroyed record referred to) every event leads to a resting state exactly when it is neither a 380 redirect nor a termination of a live call |
| CallMachine.StepKeepsBooks | mediastreamer2.root/mobilePhone/PhoneCore.cpp:508-542 | every event, also after a hang-up, keeps: calls are logged once each, in the order they were made; the log is the last 15; the missed counter counts the missed; at most one call is live |
| CallMachine.RunKeepsBooks | mediastreamer2.root/mobilePhone/PhoneCore.cpp:197-301 | the same over every run |
| CallMachine.CallInvariant | mediastreamer2.root/mobilePhone/GeneralState.cpp:46-78 | from start-up, over every run without those two events: resting, books kept, and calls made = calls logged plus one exactly when the state is not idle |
| CallOutcomes.CallEndsIff | mediastreamer2.root/mobilePhone/Events.cpp:399-525 | a live call goes on exactly when the event does not end it, a challenge (401, 407) for one; when it ends it is logged once, as success when it was answered, missed when it rang here, aborted otherwise |
| CallOutcomes.ChallengeKeepsCall | mediastreamer2.root/mobilePhone/Events.cpp:462-467 | a failure with 401 or 407 changes nothing |
| CallOutcomes.LeftBehind | mediastreamer2.root/mobilePhone/Events.cpp:399-525 | what is left of an ended call: nothing, a new call after a 302, a reference after a termination; and in which general state, with ring and streams stopped |
| CallOutcomes.CallGoesOn | mediastreamer2.root/mobilePhone/Events.cpp:300-355 | event by event, the state, the dialog, the general state, the ring and the streams with which a live call goes on |
| CallOutcomes.CallIsPlaced | mediastreamer2.root/mobilePhone/Events.cpp:714-721 | an invite (`LinphoneCore.cpp:914-1009`) places a call exactly when the request goes out, and leaves the phone idle otherwise |
| CallOutcomes.CallIsTaken | mediastreamer2.root/mobilePhone/Events.cpp:526-621 | an INVITE becomes the call, and rings, exactly when the phone is online and free and the offer negotiates |
| CallOutcomes.PresenceCodes | mediastreamer2.root/mobilePhone/Events.cpp:539-569 | 480 for those away, 302 and 380 for those with another contact, 486 for all others |
| CallOutcomes.IdleStays | mediastreamer2.root/mobilePhone/Events.cpp:399-525 | without a call, a 302 is an invite and the other events change next to nothing |
| CallOutcomes.SentExactly | mediastreamer2.root/mobilePhone/Events.cpp:300-686 | what each event makes the phone send: one answer to a request, and a BYE for a dialog it gives up |
| CallOutcomes.RunTells | mediastreamer2.root/mobilePhone/GeneralState.cpp:46-78 | over every run from start-up the user interface was last told the state the call is in |
| CallOutcomes.LogIsLastFifteen | mediastreamer2.root/mobilePhone/PhoneCore.cpp:531-538 | the log shows the last fifteen calls |
| CallMachine.RedirectLeavesStateBehind | mediastreamer2.root/mobilePhone/Events.cpp:702-706 | a run of two events that ends with no call and the state still OUT_INVITE |
| CallMachine.TerminateLeavesReference | mediastreamer2.root/mobilePhone/Events.cpp:335-339 | a run of two events that ends idle with the reference on a destroyed record (`LinphoneCore.cpp:1240-1262`) |
| CallMachine.AfterHangUp | mediastreamer2.root/mobilePhone/Events.cpp:571-576 | after a termination an invite changes nothing and every INVITE to an online phone is answered with 486 |
| CallMachine.HangUpIsFinal | mediastreamer2.root/mobilePhone/Events.cpp:571-576 | and so it stays over every run: no call is made or taken any more |
| CallMachine.ForeignEventsAreIsolated | mediastreamer2.root/mobilePhone/Events.cpp:344-358 | answered, proceeding, closed, failure, released and new-INVITE events of another call leave the current call, the states and the log alone |
| CallMachine.ForeignRingingIff | mediastreamer2.root/mobilePhone/Events.cpp:722-763 | a ringing event of another call does so exactly when it has nothing left to change |
| CallMachine.EveryInviteIsAnswered | mediastreamer2.root/mobilePhone/Events.cpp:526-621 | every new INVITE gets exactly one answer: by presence, 486 while there is a call or a reference to one, 415 for an offer that does not negotiate, 180 exactly when it becomes the call |
| PhoneCore.Phone.constructor | mediastreamer2.root/mobilePhone/GeneralState.cpp:14-18 | the initial states |
| PhoneCore.Phone.NewGState | mediastreamer2.root/mobilePhone/GeneralState.cpp:46-78 | sets the state of its group only, notifies, and leaves END and ERROR for IDLE by one call to itself |
| PhoneCore.Phone.DestroyCall | mediastreamer2.root/mobilePhone/PhoneCore.cpp:508-542 | logs the call with its status, trims the log, and leaves the reference behind |
| PhoneCore.Phone.InviteUrl | mediastreamer2.root/mobilePhone/Events.cpp:714-721 | the invite issued here (`LinphoneCore.cpp:914-1009`) places a call, or returns to idle on any failure |
| PhoneCore.Phone.TerminateNow | mediastreamer2.root/mobilePhone/Events.cpp:335-339 | the termination issued here (`LinphoneCore.cpp:1240-1262`) ends the dialog, notifies, destroys the record and keeps the reference |
| PhoneCore.Phone.Iterate | mediastreamer2.root/mobilePhone/PhoneCore.cpp:152-190 | terminates a call that rang too long or went silent |
| PhoneCore.Phone.CallAccepted | mediastreamer2.root/mobilePhone/Events.cpp:300-342 | connects the call that was answered, or terminates it when the answer does not negotiate |
| PhoneCore.Phone.CallProceeding | mediastreamer2.root/mobilePhone/Events.cpp:344-355 | takes the dialog over, or ends a dialog that is not the call's |
| PhoneCore.Phone.CallTerminated | mediastreamer2.root/mobilePhone/Events.cpp:399-430 | ends the call on a BYE or CANCEL |
| PhoneCore.Phone.CallFailed | mediastreamer2.root/mobilePhone/Events.cpp:433-525 | ends the call of that id exactly when the failure is not a challenge, and changes nothing on 401 and 407 |
| PhoneCore.Phone.IncNewCall | mediastreamer2.root/mobilePhone/Events.cpp:526-621 | answers by presence, busy, failed negotiation, or rings |
| PhoneCore.Phone.Redirect | mediastreamer2.root/mobilePhone/Events.cpp:695-721 | drops the call, and for 302 places the new one |
| PhoneCore.Phone.Ring | mediastreamer2.root/mobilePhone/Events.cpp:722-763 | rings or starts early media, also after a mismatch |
| PhoneCore.Phone.CallReleased | mediastreamer2.root/mobilePhone/Events.cpp:821-832 | drops the call that could not be reached |
| PhoneCore.Phone.CallReinvited | mediastreamer2.root/mobilePhone/Events.cpp:645-686 | restarts the media or refuses |
| PhoneCore.Phone.ProcessEvent | mediastreamer2.root/mobilePhone/PhoneCore.cpp:197-301 | dispatches every event to its handler; keeps the books, comes to rest again exactly when the event is not one of the two ways out, leaves the call alone when the event is another call's, and ends, continues, answers and reports the call as `CallOutcomes.HandledRight` tells |
| PhoneCore.Phone.ProcessAll | mediastreamer2.root/mobilePhone/PhoneCore.cpp:152-301 | over a whole run the object keeps the books, comes to rest without the two ways out, and keeps its call as it is after a hang-up |

## Left out

- Transport and media: eXosip transactions, osip printing and parsing of whole messages, oRTP and mediastreamer streams. An offer or answer reaches the other side as it was built, and the outcome of a library call is part of the event.
- SDP attribute text: an `a=` value is modelled as its leading integer and the text after it, not as one string read by `sscanf`.
- Relays: `relay-addr` and the relay session, because every context is created without a relay.
- The unused `localport` that reading an answer copies from the offer, the protocol field of a payload, and session fields other than the connection address.
- Fixed buffers other than the 1024-byte line buffer and the 128-byte realm buffers; realms of 127 characters and more are compared on unset memory and are excluded.
- 32-bit wrap-around: of the edit counter after 2^31 unsaved edits, of bandwidth settings above 2147483, and of decimal texts.
- Text-mode newline translation of the file, and its access rights.
- Configure.Config.Commit: a write that fails half-way is not modelled; the file is either replaced or left alone.
- Store.GetIntAfterSetInt: lp_config_get_float is not modelled.
- Friends.ContactList.AddFriend: subscriptions and presence notifications sent besides the list change are network effects.
- Credentials.AuthList.RemoveInfo: the destruction of the record handed in, and linphone_core_clear_all_auth_info.
- Once linphone_core_terminate_call has left its reference behind, a run goes on only with events whose handler does not read the destroyed record: an invite, a new INVITE, a redirect other than 302 and 380, a re-INVITE or an ACK without SDP. The others, among them linphone_core_iterate, read it in the original, which has no defined outcome; nor has a re-INVITE or an ACK with SDP without a call.
- CallMachine.ForeignEventsAreIsolated: redirect, re-INVITE and ACK events carry no call id in the model, because their handlers never look at it.
- Registration (`Proxy.cpp`), presence documents (`Presence.cpp`), chat, DTMF, STUN, ENUM lookup, sound devices and the user interface.
