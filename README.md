# Chat client core, modelled in Dafny

This project models the client-side logic of a chat application built on an
Internet Computer backend. Users join text rooms and community servers,
exchange messages and announcements, keep a profile, and start voice calls
between two browsers.

The one piece with real state is the **voice panel** of a room. It tracks
`isJoined`, `isMuted`, `error` and `micPermissionDenied`, and holds two handles:
the captured microphone stream and the peer connection. Five steps drive it:

- join;
- leave;
- mute toggle;
- unmount;
- a signalling pass over each polled snapshot `{offer?, answer?, iceCandidates}`.

The signalling follows the offer/answer exchange of RFC 3264 (sections 5 and
6), with ICE candidates as in RFC 8445. The model keeps four behaviours of the
code as they are:

- every join publishes an offer;
- any unanswered offer is answered, including the panel's own;
- an answer is never applied by the offerer;
- every pass re-applies every candidate.

Around the panel sit small pieces of sequential logic:

- member-list ordering and permission rules;
- the announcement thread's search, pinned/unpinned sections, emoji splice and post rules;
- the server page's validators (accent colour, bio length, upload limits) and its invite link, built with `encodeURIComponent`;
- principal and server initials, and the country-flag allow-list;
- profile construction and fallback profiles;
- the app shell's selection and invite/switch-intent state machine;
- the settings dialog's handlers;
- the error-message classifiers of the invite and saved-link hooks;
- the trim-and-submit rules of the message composer and the room list.

Each modelled source file becomes one module. Pure code is written as functions
and lemmas. Components whose handlers update state become classes: the state
is their fields, and each handler is a method with a `modifies` clause.
Whatever a handler hands to the outside world is appended to a log field, so
its contract can state it:

- store calls (`calls`, `requests`, `steps`);
- saved profiles (`saved`) and posts (`posted`);
- created rooms (`created`) and room selections (`selections`);
- error toasts (`reported`, `notices`).

Everything the browser, the backend or the user supplies is a method
parameter. This covers the outcome of every awaited call (`Outcome`, or
`Step` in the voice panel), picked files, key presses and polled snapshots.

Helper modules:

- `Wrappers` holds `Option` and `Outcome`.
- `Text` models the JavaScript string operations the code relies on:
  - `trim` over the ECMAScript white-space and line-terminator set;
  - `toUpperCase`/`toLowerCase`, restricted to ASCII;
  - `includes` and `startsWith`;
  - `slice` and `substring`, with clamping;
  - the truthiness of an optional string under `||`.
- `Lists` holds `filter` with its subsequence property.
- `LexOrder` is the total order standing in for `localeCompare`.
- `UriComponent` is `encodeURIComponent`: UTF-8 bytes, percent-encoded per section 2.1 of RFC 3986 with upper-case hex digits. Its partner is a decoder.
- `Records` holds the shared record types.
- `SignalingStore` is the backend's voice-session record as the panel sees it.

## Model

Every function, method and lemma with a contract has a row in the table
below, with three exceptions. `Text.SkipSpaceUnique` and
`Text.SkipSpaceBackUnique` say that a position with only white space before
it (after it) and a non-space character at it (just before it) is where
trimming stops; the trim lemmas rest on them. `ServerAnnouncements.Shown`
turns an optional toast into log entries.

Members without a contract have no row. They are the definitions the rows'
contracts are written in:

- Predicates read directly off one source expression:
  - `App.ShowProfileSetup`;
  - `MessageComposer.SubmitsOnKey` and `MessageComposer.SendDisabled`;
  - `ProfileSetup.SubmitDisabled`;
  - `RoomList.IsHighlighted` and `RoomList.CreateDisabled`;
  - `RoomMemberList.ViewerIsOwner`, `RoomMemberList.IsCurrentUser`, `RoomMemberList.ShowRoleControls` and `RoomMemberList.SetAsDisabled`;
  - `ServerAnnouncements.Matches`, `ServerAnnouncements.IsPinnedShown`, `ServerAnnouncements.IsUnpinned`, `ServerAnnouncements.ImageAcceptable`, `ServerAnnouncements.VideoAcceptable`, `ServerAnnouncements.AtMostOneAttachment` and `ServerAnnouncements.SaveDisabled`;
  - `ServerMemberList.CurrentUserIsOwner` and `ServerMemberList.ShowModerationMenu`;
  - `ServerView.UploadDisabled`, `ServerView.IconRejection`, `ServerView.BannerRejection` and `ServerView.DisplayedLink`;
  - `SettingsDialog.HasAltAccounts`, whose cases `SettingsDialog.AltAccountsShownIff` states;
  - `ServerInvites.InvalidatedByJoin`;
  - `VoicePanel.ShouldAnswer`, `VoicePanel.IsPermissionFault` and `VoicePanel.Muted`.
- Reference functions that method contracts are tied to, described by the lemmas in the table:
  - the voice panel's step predicates (`VoicePanel.Captured` through `VoicePanel.JoinSucceeds`, `VoicePanel.AnswerCompletes`, `VoicePanel.FreshCapture`);
  - its call and store functions (`VoicePanel.AcquireCalls`, `VoicePanel.NegotiateCalls`, `VoicePanel.TryCalls`, `VoicePanel.JoinCalls`, `VoicePanel.JoinStore`, `VoicePanel.AnswerCalls`, `VoicePanel.ApplyCalls`, `VoicePanel.CandidateCalls`, `VoicePanel.PassCalls`, `VoicePanel.PassAnswer`, `VoicePanel.Applied`);
  - `ServerAnnouncements.Splice`;
  - `ServerView.IsHexDigit`, `ServerView.IsHexColor`, `ServerView.MatchFrom` and `ServerView.AccentPatternTest`;
  - `RoomMemberList.MemberLe` and `RoomMemberList.Sorted`;
  - `LexOrder.LexLe` and `Lists.IsSubsequence`;
  - the partner decoder (`UriComponent.Decode`, `UriComponent.CodePoint`, `UriComponent.SequenceLength`, `UriComponent.IsContinuation`, `UriComponent.IsScalar`, `UriComponent.HexValue`) and `UriComponent.Unreserved`.
- Basic definitions:
  - `Text.IsSpace`, `Text.AllSpace`, `Text.IsTrimmed`, `Text.StartsWith`, `Text.OccursAt`, `Text.Contains`, `Text.Truthy` and `Text.Min`;
  - `Wrappers.GetOr`, `Flags.DistinctIds`, `ProfileForm.DistinctBackgrounds`, `ProfileForm.SavedShape` and `SignalingStore.WellFormed`.
- Class invariants: `App.Shell.Valid`, `ServerAnnouncements.Composer.Valid` and `VoicePanel.Panel.Valid`.

| member | source | states |
|---|---|---|
| VoicePanel.FirstFault | src/frontend/src/components/voice/VoicePanel.tsx:95-140 | The join's try-block throws nothing exactly when every awaited step succeeds. Send-offer counts only when the offer SDP is non-empty. A failed capture is the error thrown, and so is a failed send-offer after every earlier step succeeded. |
| VoicePanel.JoinErrorMessage | src/frontend/src/components/voice/VoicePanel.tsx:145-152 | NotAllowedError and PermissionDeniedError give the permission message, and nothing else does. NotFoundError gives the no-microphone message. Every other name gives the generic retry message. |
| VoicePanel.ReleaseCalls | src/frontend/src/components/voice/VoicePanel.tsx:154-162 | Cleanup stops the tracks iff a stream is held and closes the connection iff one is held. It never ends the session. |
| VoicePanel.FirstAudio | src/frontend/src/components/voice/VoicePanel.tsx:195 | `getAudioTracks()[0]` is the first track of kind audio. There is none iff no track is audio. |
| VoicePanel.ToggleFirstAudio | src/frontend/src/components/voice/VoicePanel.tsx:194-197 | The toggle changes only the first audio track. Every other track, the stream's identity and the track kinds stay the same. Without an audio track the stream is unchanged. |
| VoicePanel.ToggleFlipsMuted | src/frontend/src/components/voice/VoicePanel.tsx:197-198 | With an audio track present, a toggle flips the muted reading, and the first audio track stays the same. |
| VoicePanel.ToggleTwice | src/frontend/src/components/voice/VoicePanel.tsx:197 | Toggling twice restores the stream. |
| VoicePanel.FirstAudioByKinds | src/frontend/src/components/voice/VoicePanel.tsx:195 | The first audio track depends only on the kinds of the tracks. |
| VoicePanel.FreshIsUnmuted | src/frontend/src/components/voice/VoicePanel.tsx:97 | A freshly captured stream, whose tracks are all enabled, never reads as muted. |
| VoicePanel.Published | src/frontend/src/components/voice/VoicePanel.tsx:112-121 | The published candidate is the event's candidate when that is truthy and '' otherwise. The line index is the event's index, or 0 when absent. |
| VoicePanel.PolledRoom | src/frontend/src/components/voice/VoicePanel.tsx:31-34 | The session is polled iff the panel is joined, and then for the panel's own room. |
| VoicePanel.Panel.constructor | src/frontend/src/components/voice/VoicePanel.tsx:23-29 | Initial state: not joined, not muted, no error, no permission flag, no handles, no calls. |
| VoicePanel.Panel.Join | src/frontend/src/components/voice/VoicePanel.tsx:91-164 | The join issues exactly JoinCalls: the try-block up to the first failure, then the release of what was acquired. The store gets the started session and, when sent, the offer. On success the panel is joined with both handles and no error. On failure it is not joined, holds no handles, and its error and permission flag come from the first fault. Valid() is preserved. |
| VoicePanel.Panel.Acquire | src/frontend/src/components/voice/VoicePanel.tsx:97-109 | Capture, connect and add-tracks run in order, stopping at the first failure. Each handle is held iff its step succeeded. |
| VoicePanel.Panel.Negotiate | src/frontend/src/components/voice/VoicePanel.tsx:130-138 | Start-session, create-offer and set-local run in order, then send-offer only for a non-empty SDP. They stop at the first failure, whose fault is returned. The store is updated accordingly. |
| VoicePanel.Panel.Catch | src/frontend/src/components/voice/VoicePanel.tsx:142-163 | The catch block sets the error from the fault's name, sets the permission flag for permission faults, and releases both handles. |
| VoicePanel.Panel.Leave | src/frontend/src/components/voice/VoicePanel.tsx:166-191 | Leave always releases and clears both handles and then calls end-session. If it succeeds: not joined, not muted, no error, no session. If it fails: still joined, the leave error is set, and the store is unchanged. |
| VoicePanel.Panel.ToggleMute | src/frontend/src/components/voice/VoicePanel.tsx:193-202 | The toggle flips the first audio track and negates isMuted. With no stream or no audio track nothing changes. It never issues a call. |
| VoicePanel.Panel.Retry | src/frontend/src/components/voice/VoicePanel.tsx:204-207 | Retry clears the error and the permission flag and changes nothing else. |
| VoicePanel.Panel.Unmount | src/frontend/src/components/voice/VoicePanel.tsx:42-51 | Unmount stops and closes the held handles but leaves the store session untouched, because end-session is never called. |
| VoicePanel.Panel.OnIceCandidate | src/frontend/src/components/voice/VoicePanel.tsx:112-122 | A discovered candidate is published once, and the store gains it when the publish succeeds. The end-of-candidates event does nothing. |
| VoicePanel.Panel.OnSnapshot | src/frontend/src/components/voice/VoicePanel.tsx:54-89 | The pass issues exactly PassCalls. The store gains an answer exactly when PassAnswer gives one. The panel's state and handles are unchanged. |
| VoicePanel.Panel.Answer | src/frontend/src/components/voice/VoicePanel.tsx:60-68 | The answer branch runs set-remote, create-answer and set-local, then sends the answer only when its SDP is non-empty. It reports whether every step succeeded. |
| VoicePanel.Panel.ApplyCandidates | src/frontend/src/components/voice/VoicePanel.tsx:71-82 | The loop tries every candidate in order and logs a warning after each failed one without stopping. |
| VoiceProperties.TryCallsRelease | src/frontend/src/components/voice/VoicePanel.tsx:95-140 | The try-block never stops tracks, closes the connection or ends the session. It never touches a remote description or an answer. |
| VoiceProperties.FailedJoinReleases | src/frontend/src/components/voice/VoicePanel.tsx:154-162 | A failed join stops the tracks iff capture succeeded and closes the connection iff connecting succeeded. A successful join releases nothing. No join ends the session. |
| VoiceProperties.JoinSendsOfferIff | src/frontend/src/components/voice/VoicePanel.tsx:131-138 | A join sends an offer iff every step up to set-local succeeded and the offer SDP is non-empty. Nothing checks whether the session already holds an offer. |
| VoiceProperties.EveryJoinPublishesOffer | src/frontend/src/components/voice/VoicePanel.tsx:131-138 | A join that sends its offer overwrites any offer already stored and keeps the stored answer and candidates. |
| VoiceProperties.JoinWithoutOfferKeepsOffer | src/frontend/src/components/voice/VoicePanel.tsx:131-138 | A join that sends no offer leaves an existing session as it was. It creates an empty session only when start-session succeeded. |
| VoiceProperties.CandidateCallsKinds | src/frontend/src/components/voice/VoicePanel.tsx:71-82 | The candidate loop issues only add-candidate attempts and warnings. |
| VoiceProperties.InertPass | src/frontend/src/components/voice/VoicePanel.tsx:55-71 | A pass does nothing when the panel is not joined, when there is no snapshot, or when no connection is held. |
| VoiceProperties.AnswerSentIff | src/frontend/src/components/voice/VoicePanel.tsx:60-68 | A pass sends an answer iff all of these hold: joined, a snapshot, an offer set, no answer set, a connection held, the answer steps succeed, and the answer SDP is non-empty. Who wrote the offer is not checked. |
| VoiceProperties.AnswerStoredIff | src/frontend/src/components/voice/VoicePanel.tsx:65-66 | The store receives an answer exactly when the pass sends one and sending succeeds. |
| VoiceProperties.AnswerNeverApplied | src/frontend/src/components/voice/VoicePanel.tsx:60-68 | No join sets a remote description. A pass sets one only from the snapshot's offer, never from its answer. |
| VoiceProperties.AnswerContentIgnored | src/frontend/src/components/voice/VoicePanel.tsx:60 | Any two non-empty stored answers give the same pass calls, and neither pass writes an answer. |
| VoiceProperties.AppliedAppend | src/frontend/src/components/voice/VoicePanel.tsx:74 | The applied candidates of two call sequences, one after the other, are the applied candidates of each, concatenated. |
| VoiceProperties.AppliedNone | src/frontend/src/components/voice/VoicePanel.tsx:74 | A call sequence with no add-candidate call applies nothing. |
| VoiceProperties.AppliedOne | src/frontend/src/components/voice/VoicePanel.tsx:73-80 | One candidate is applied once, whether the attempt fails or not. |
| VoiceProperties.CandidateLoopAppliesAll | src/frontend/src/components/voice/VoicePanel.tsx:71-82 | The loop applies exactly the snapshot's candidates, in list order, failures included. |
| VoiceProperties.AnswerCallsApplyNothing | src/frontend/src/components/voice/VoicePanel.tsx:60-68 | The answer branch applies no candidate. |
| VoiceProperties.PassAppliesAllCandidates | src/frontend/src/components/voice/VoicePanel.tsx:71-82 | A pass whose answer branch does not fail applies every candidate of the snapshot, in order. |
| VoiceProperties.RepeatedPassesReapply | src/frontend/src/components/voice/VoicePanel.tsx:71-82 | Two passes over one snapshot apply its candidates twice. No record of applied candidates is kept. |
| VoiceProperties.OwnOfferAnswered | src/frontend/src/components/voice/VoicePanel.tsx:60-68 | The first joiner's own offer passes the answer test on its next pass, so the panel answers itself. |
| VoiceProperties.LaterOfferNeverAnswered | src/frontend/src/components/voice/VoicePanel.tsx:131-138 | A second joiner overwrites the offer but keeps the old answer. A pass over `JoinStore(s, env)`, the store as the second join leaves it, therefore never answers the new offer. |
| SignalingStore.Started | src/frontend/src/hooks/useVoiceSession.ts:25-27 | Starting opens an empty session when there is none and keeps an existing one. |
| SignalingStore.WithOffer | src/frontend/src/hooks/useVoiceSession.ts:55-57 | Sending an offer overwrites the offer of an open session and keeps its answer and candidates. |
| SignalingStore.WithAnswer | src/frontend/src/hooks/useVoiceSession.ts:70-72 | Sending an answer overwrites the answer and keeps the offer and candidates. |
| SignalingStore.WithCandidate | src/frontend/src/hooks/useVoiceSession.ts:84-86 | Adding a candidate appends it, duplicates included, and keeps offer and answer. |
| SignalingStore.WritesKeepWellFormed | src/frontend/src/hooks/useVoiceSession.ts:25-86 | Every write keeps "no answer without an offer", except an answer written to a session that has no offer. |
| SignalingStore.Store.constructor | src/frontend/src/hooks/useVoiceSession.ts:5-18 | The store starts with no session for the room. |
| SignalingStore.Store.Start | src/frontend/src/hooks/useVoiceSession.ts:25-27 | The new session is Started(old session). |
| SignalingStore.Store.End | src/frontend/src/hooks/useVoiceSession.ts:40-42 | Ending removes offer, answer and candidates. |
| SignalingStore.Store.SetOffer | src/frontend/src/hooks/useVoiceSession.ts:55-57 | The new session is WithOffer(old session). |
| SignalingStore.Store.SetAnswer | src/frontend/src/hooks/useVoiceSession.ts:70-72 | The new session is WithAnswer(old session). |
| SignalingStore.Store.AddCandidate | src/frontend/src/hooks/useVoiceSession.ts:84-86 | The new session is WithCandidate(old session). |
| RoomMemberList.RoleLabel | src/frontend/src/components/chat/RoomMemberListPanel.tsx:38-51 | Each role has one of four labels. 'Owner' belongs to owner only and 'Member' to member only. |
| RoomMemberList.RoleColor | src/frontend/src/components/chat/RoomMemberListPanel.tsx:53-66 | The muted colour belongs to plain members only. |
| RoomMemberList.LabelsAndColoursDistinct | src/frontend/src/components/chat/RoomMemberListPanel.tsx:38-66 | Distinct roles get distinct labels and distinct colours. |
| RoomMemberList.RoleRank | src/frontend/src/components/chat/RoomMemberListPanel.tsx:213-218 | Ranks run from 0 to 3. Rank 0 is owner only and rank 3 is member only. |
| RoomMemberList.RankInjective | src/frontend/src/components/chat/RoomMemberListPanel.tsx:213-218 | Equal ranks mean equal roles. |
| RoomMemberList.FindRole | src/frontend/src/components/chat/RoomMemberListPanel.tsx:193 | There is no role iff no role-list entry has that principal. Any role found belongs to an entry for that principal. |
| RoomMemberList.ViewerRole | src/frontend/src/components/chat/RoomMemberListPanel.tsx:191-195 | With no signed-in principal there is no role. Otherwise the role is the role-list lookup for the viewer. |
| RoomMemberList.ViewerIsOwnerIff | src/frontend/src/components/chat/RoomMemberListPanel.tsx:191-197 | The viewer is owner iff signed in and the role-list lookup for the viewer gives owner. |
| RoomMemberList.Merge | src/frontend/src/components/chat/RoomMemberListPanel.tsx:200-209 | The merge keeps the presence list's length, order, principals and activity. Each role comes from the role-list lookup, or is member when there is none. |
| RoomMemberList.UnlistedIsMember | src/frontend/src/components/chat/RoomMemberListPanel.tsx:206 | A presence entry with no role-list entry merges as a plain member. |
| RoomMemberList.MemberLeTotal | src/frontend/src/components/chat/RoomMemberListPanel.tsx:220-230 | The comparator orders every pair. |
| RoomMemberList.MemberLeTransitive | src/frontend/src/components/chat/RoomMemberListPanel.tsx:220-230 | The comparator is transitive. |
| RoomMemberList.MemberLeAntisymmetric | src/frontend/src/components/chat/RoomMemberListPanel.tsx:220-230 | Entries that tie both ways are equal, so the result does not depend on the sort's stability. |
| RoomMemberList.Insert | src/frontend/src/components/chat/RoomMemberListPanel.tsx:220 | Inserting into a sorted list keeps it sorted and adds exactly that entry. |
| RoomMemberList.SortMembers | src/frontend/src/components/chat/RoomMemberListPanel.tsx:220-230 | The sorted copy is sorted and is a permutation of its input. |
| RoomMemberList.SortedTail | src/frontend/src/components/chat/RoomMemberListPanel.tsx:220-230 | The tail of a sorted list is sorted. |
| RoomMemberList.SortedHeadsAgree | src/frontend/src/components/chat/RoomMemberListPanel.tsx:220-230 | Two sorted arrangements of one multiset start with the same entry. |
| RoomMemberList.SortedPermutationUnique | src/frontend/src/components/chat/RoomMemberListPanel.tsx:220-230 | There is exactly one sorted arrangement of a multiset, so any correct sort gives the rendered order. |
| RoomMemberList.SortedMembers | src/frontend/src/components/chat/RoomMemberListPanel.tsx:200-231 | The rendered list has one entry per presence entry, is sorted, and is a permutation of the merged list. |
| RoomMemberList.SortedOrderKeys | src/frontend/src/components/chat/RoomMemberListPanel.tsx:221-229 | In a sorted list, role rank never decreases, owners come first, and within one role active members precede inactive ones. |
| RoomMemberList.RoleControlsIff | src/frontend/src/components/chat/RoomMemberListPanel.tsx:103 | A row shows role controls iff the viewer is owner, the row is not the viewer, and the row's role is not owner. (The controls are rendered at lines 279-280.) |
| RoomMemberList.ExactlyOneDisabled | src/frontend/src/components/chat/RoomMemberListPanel.tsx:144-164 | On a non-owner row, exactly one "Set as" item is disabled: the one for the row's current role. |
| RoomMemberList.MemberCountLabel | src/frontend/src/components/chat/RoomMemberListPanel.tsx:254 | The header says 'member' iff the count is 1, and 'members' otherwise. |
| RoomMemberList.KickDialog.constructor | src/frontend/src/components/chat/RoomMemberListPanel.tsx:186 | No kick target at first, and nothing requested. |
| RoomMemberList.KickDialog.Pick | src/frontend/src/components/chat/RoomMemberListPanel.tsx:167 | Choosing "Kick from Room" makes that member the target. (The target is set through the callback passed at line 282.) |
| RoomMemberList.KickDialog.Dismiss | src/frontend/src/components/chat/RoomMemberListPanel.tsx:290 | Closing the dialog clears the target. |
| RoomMemberList.KickDialog.Confirm | src/frontend/src/components/chat/RoomMemberListPanel.tsx:233-243 | With no target nothing happens. Otherwise one kick is requested for the target. The target is cleared only when the kick succeeds. A failure shows the error's message, or 'Failed to kick member' when it has none. |
| RoomMemberList.MemberRow.constructor | src/frontend/src/components/chat/RoomMemberListPanel.tsx:86 | Nothing requested, nothing reported. |
| RoomMemberList.MemberRow.ChangeRole | src/frontend/src/components/chat/RoomMemberListPanel.tsx:94-101 | Picking a role requests exactly that role for the row's member, whatever the outcome. A failure shows the error's message, or 'Failed to update role' when it has none. |
| ServerMemberList.Rows | src/frontend/src/components/servers/ServerMemberList.tsx:301-307 | There is one row per member, in input order. A row is flagged owner iff its principal is the owner id. The viewer is owner iff signed in with the owner id. (The owner flag comes from line 269.) |
| ServerMemberList.MenuRows | src/frontend/src/components/servers/ServerMemberList.tsx:119 | The moderation menu appears iff the viewer is owner and the row is not the owner's. So it never appears on the viewer's own row. (The viewer-is-owner flag comes from line 269; rows at line 306.) |
| ServerMemberList.ListBody | src/frontend/src/components/servers/ServerMemberList.tsx:283-310 | While loading, the body shows placeholders. An empty list shows 'No active members'. Otherwise it shows the rows. |
| ServerMemberList.MemberItem.constructor | src/frontend/src/components/servers/ServerMemberList.tsx:51-55 | All dialogs closed, empty ban duration, no selected role, nothing reported. |
| ServerMemberList.MemberItem.OpenKick | src/frontend/src/components/servers/ServerMemberList.tsx:154 | Opens the kick dialog and changes nothing else. |
| ServerMemberList.MemberItem.OpenBan | src/frontend/src/components/servers/ServerMemberList.tsx:158 | Opens the ban dialog and changes nothing else. |
| ServerMemberList.MemberItem.EditBanDuration | src/frontend/src/components/servers/ServerMemberList.tsx:201 | Sets the ban duration text. |
| ServerMemberList.MemberItem.PickRole | src/frontend/src/components/servers/ServerMemberList.tsx:137-148 | Selects the role and opens the role dialog. |
| ServerMemberList.MemberItem.HandleKick | src/frontend/src/components/servers/ServerMemberList.tsx:57-61 | Reports kicking as unsupported and closes the kick dialog. Nothing reaches the backend. |
| ServerMemberList.MemberItem.CancelBan | src/frontend/src/components/servers/ServerMemberList.tsx:209-212 | Cancel closes the ban dialog and clears the duration. |
| ServerMemberList.MemberItem.HandleBan | src/frontend/src/components/servers/ServerMemberList.tsx:63-68 | Reports banning as unsupported, closes the dialog and clears the duration. |
| ServerMemberList.MemberItem.HandleSetRole | src/frontend/src/components/servers/ServerMemberList.tsx:70-75 | Reports role management as unsupported, closes the dialog and clears the selected role. |
| ServerAnnouncements.FilterAnnouncements | src/frontend/src/components/servers/ServerAnnouncementThread.tsx:280-284 | A query that trims to empty keeps every announcement. Otherwise the result is exactly the announcements whose lowercased content contains the lowercased, untrimmed query, each with its full multiplicity, as a subsequence in original order. |
| ServerAnnouncements.QueryMatchedUntrimmed | src/frontend/src/components/servers/ServerAnnouncementThread.tsx:280-282 | The emptiness test trims the query but the match does not. A query with a trailing space can miss the very content it trims to. |
| ServerAnnouncements.FilterIdempotentOnQuery | src/frontend/src/components/servers/ServerAnnouncementThread.tsx:280-284 | Filtering the results again with the same query changes nothing. |
| ServerAnnouncements.PinnedSection | src/frontend/src/components/servers/ServerAnnouncementThread.tsx:287 | The pinned section holds exactly the pinned, not-deleted announcements, in order. |
| ServerAnnouncements.UnpinnedSection | src/frontend/src/components/servers/ServerAnnouncementThread.tsx:288 | The unpinned section holds exactly the unpinned announcements, in order. |
| ServerAnnouncements.SectionsPartition | src/frontend/src/components/servers/ServerAnnouncementThread.tsx:287-288 | No announcement is in both sections. A pinned-and-deleted one is in neither. Together the sections are the list minus the pinned-and-deleted ones. |
| ServerAnnouncements.NoFileIsBoth | src/frontend/src/components/servers/ServerAnnouncementThread.tsx:293-315 | No file passes both the image check and the video check. |
| ServerAnnouncements.ImageRejection | src/frontend/src/components/servers/ServerAnnouncementThread.tsx:293-300 | An image is rejected iff its type does not start with 'image/' or it exceeds 10 MiB. A wrong type gets 'Please select an image file' even when the file is also too large. |
| ServerAnnouncements.VideoRejection | src/frontend/src/components/servers/ServerAnnouncementThread.tsx:309-316 | A video is rejected iff its type does not start with 'video/' or it exceeds 50 MiB. A wrong type gets 'Please select a video file' even when the file is also too large. |
| ServerAnnouncements.ImageAndVideoExclusive | src/frontend/src/components/servers/ServerAnnouncementThread.tsx:535 | The composer never holds an image and a video together, so no post it has sent carries both. The video button at line 552 is disabled while an image is held, and the image button while a video is held. |
| ServerAnnouncements.SpliceReplacesSelection | src/frontend/src/components/servers/ServerAnnouncementThread.tsx:381-388 | The emoji replaces exactly the selected range. The text before and after is kept, and the new caret position `start + len(emoji)` sits right after the emoji. |
| ServerAnnouncements.Composer.constructor | src/frontend/src/components/servers/ServerAnnouncementThread.tsx:264-269 | Empty content, no attachments, zero progress, nothing posted or reported. |
| ServerAnnouncements.Composer.Edit | src/frontend/src/components/servers/ServerAnnouncementThread.tsx:510 | Typing sets the content only. |
| ServerAnnouncements.Composer.SelectImage | src/frontend/src/components/servers/ServerAnnouncementThread.tsx:290-304 | Reachable only while no video is held, as the disabled button at line 535 demands. An image with an 'image/' type and at most 10 MiB is attached. A rejected file shows its rejection toast and changes nothing else. A missing file changes nothing. |
| ServerAnnouncements.Composer.SelectVideo | src/frontend/src/components/servers/ServerAnnouncementThread.tsx:306-320 | Reachable only while no image is held, as the disabled button at line 552 demands. A video with a 'video/' type and at most 50 MiB is attached. A rejected file shows its rejection toast and changes nothing else. A missing file changes nothing. |
| ServerAnnouncements.Composer.ClearAttachments | src/frontend/src/components/servers/ServerAnnouncementThread.tsx:322-332 | Clearing removes both attachments and resets the progress to 0. |
| ServerAnnouncements.Composer.Submit | src/frontend/src/components/servers/ServerAnnouncementThread.tsx:334-375 | Blank content with no attachment posts nothing and shows 'Please enter a message or attach media'. Otherwise one post is sent, carrying the trimmed text and at most one attachment. On success content, attachments and progress are cleared. On failure the error's message (or 'Failed to post announcement') is shown, text and files are kept, and the progress bar keeps the last percentage the upload reported. |
| ServerAnnouncements.Composer.InsertEmoji | src/frontend/src/components/servers/ServerAnnouncementThread.tsx:377-390 | Without a textarea nothing changes. Otherwise the content becomes the splice and the caret moves to just after the emoji. |
| ServerAnnouncements.PostedTextTrimmed | src/frontend/src/components/servers/ServerAnnouncementThread.tsx:337-366 | Posted text carries no padding and, without attachments, is never blank. |
| ServerAnnouncements.Message.constructor | src/frontend/src/components/servers/ServerAnnouncementThread.tsx:40 | Not editing, the edit text is the content, nothing requested or reported. |
| ServerAnnouncements.Message.EditClick | src/frontend/src/components/servers/ServerAnnouncementThread.tsx:75-78 | Enters edit mode on the current content. |
| ServerAnnouncements.Message.EditText | src/frontend/src/components/servers/ServerAnnouncementThread.tsx:145 | Sets the edit text. |
| ServerAnnouncements.Message.CancelEdit | src/frontend/src/components/servers/ServerAnnouncementThread.tsx:80-83 | Cancel restores the original content and leaves edit mode. |
| ServerAnnouncements.Message.SaveEdit | src/frontend/src/components/servers/ServerAnnouncementThread.tsx:85-104 | Blank text sends nothing and shows 'Announcement cannot be empty'. Otherwise the trimmed text is sent. Edit mode ends on success. A failure stays in edit mode and shows the error's message, or 'Failed to edit announcement'. |
| ServerAnnouncements.Message.TogglePin | src/frontend/src/components/servers/ServerAnnouncementThread.tsx:62-73 | The toggle requests `pin = !isPinned`, whatever the outcome. A failure shows the error's message, or 'Failed to pin/unpin announcement'. |
| ServerAnnouncements.Message.OpenDelete | src/frontend/src/components/servers/ServerAnnouncementThread.tsx:227 | Opens the delete dialog. |
| ServerAnnouncements.Message.Delete | src/frontend/src/components/servers/ServerAnnouncementThread.tsx:49-60 | Requests the delete. The dialog closes only on success. A failure keeps it open and shows the error's message, or 'Failed to delete announcement'. |
| ServerView.MatchFromDigits | src/frontend/src/components/servers/ServerView.tsx:168 | From state k, the matcher accepts exactly 7-k hex digits and nothing after them. |
| ServerView.AccentPatternIff | src/frontend/src/components/servers/ServerView.tsx:168 | `/^#[0-9A-Fa-f]{6}$/` accepts a string iff it is '#' followed by exactly six hex digits of either case. |
| ServerView.AccentExamples | src/frontend/src/components/servers/ServerView.tsx:168 | The default '#404eed' and its upper-case form pass. A missing '#', a trailing space and a non-hex digit each fail. (The default comes from line 37.) |
| ServerView.UploadRejection | src/frontend/src/components/servers/ServerView.tsx:54-62 | A file is accepted iff its type starts with 'image/' and its size is within the limit. The type is checked first, so a non-image is never rejected for size. (The banner check at lines 92-100 is the same with 10 MiB.) |
| ServerView.IconStricterThanBanner | src/frontend/src/components/servers/ServerView.tsx:58 | Every acceptable icon (5 MiB) is an acceptable banner (10 MiB). An image acceptable as a banner but over 5 MiB is rejected as an icon for its size. (The banner limit is at line 96.) |
| ServerView.ErrorText | src/frontend/src/components/servers/ServerView.tsx:79 | The toast shows the error's message when it is truthy, and the fallback otherwise. |
| ServerView.InviteUrl | src/frontend/src/components/servers/ServerView.tsx:198 | The link starts with origin + pathname + '?invite='. What follows contains no '&', '#', '=', '?' or space, so the code cannot break the query. |
| ServerView.InviteUrlCarriesCode | src/frontend/src/components/servers/ServerView.tsx:198 | The code decodes back from the link's tail, and two different codes give different links. |
| ServerView.DisplayedMatchesCopiedIff | src/frontend/src/components/servers/ServerView.tsx:198 | The displayed link equals the copied link iff every character of the code is unreserved. (The displayed link is built at line 357.) |
| ServerView.ServerPage.constructor | src/frontend/src/components/servers/ServerView.tsx:32-40 | No progress shown. The bio text is the server's bio or ''. The accent is the server's colour or '#404eed'. No invite code, nothing requested. |
| ServerView.ServerPage.ReportIconProgress | src/frontend/src/components/servers/ServerView.tsx:68-70 | The icon progress becomes the reported percentage. |
| ServerView.ServerPage.ReportBannerProgress | src/frontend/src/components/servers/ServerView.tsx:106-108 | The banner progress becomes the reported percentage. |
| ServerView.ServerPage.SelectIcon | src/frontend/src/components/servers/ServerView.tsx:50-86 | No file does nothing. A rejected file reports its reason and sends nothing. An accepted file sends one set-icon request. Its progress ends null after success and after failure alike. |
| ServerView.ServerPage.SelectBanner | src/frontend/src/components/servers/ServerView.tsx:88-125 | The same rules as the icon, with the banner limit, the banner request and the banner progress. |
| ServerView.ServerPage.ClearIcon | src/frontend/src/components/servers/ServerView.tsx:127-136 | Requests icon removal and reports a failure. |
| ServerView.ServerPage.ClearBanner | src/frontend/src/components/servers/ServerView.tsx:138-148 | Requests banner removal and reports a failure. |
| ServerView.ServerPage.EditBio | src/frontend/src/components/servers/ServerView.tsx:265-268 | Enters bio editing with the server's bio or ''. |
| ServerView.ServerPage.TypeBio | src/frontend/src/components/servers/ServerView.tsx:279 | Sets the bio text. |
| ServerView.ServerPage.CancelBio | src/frontend/src/components/servers/ServerView.tsx:292-295 | Leaves editing and resets the text to the server's bio or ''. |
| ServerView.ServerPage.SaveBio | src/frontend/src/components/servers/ServerView.tsx:150-165 | A bio over 500 characters is reported and not sent. Exactly 500 is accepted. Otherwise the bio is sent, and editing ends only on success. |
| ServerView.ServerPage.EditAccent | src/frontend/src/components/servers/ServerView.tsx:490-492 | Enters accent editing with the server's colour or '#404eed'. |
| ServerView.ServerPage.TypeAccent | src/frontend/src/components/servers/ServerView.tsx:502 | Sets the accent text. |
| ServerView.ServerPage.CancelAccent | src/frontend/src/components/servers/ServerView.tsx:510-513 | Leaves editing and resets the accent to the server's colour or '#404eed'. |
| ServerView.ServerPage.SaveAccent | src/frontend/src/components/servers/ServerView.tsx:167-182 | A value that is not '#' plus six hex digits is reported and not sent. Otherwise it is sent, and editing ends only on success. |
| ServerView.ServerPage.Generate | src/frontend/src/components/servers/ServerView.tsx:184-193 | Requests a code. On success the code is kept. On failure the failure is reported. |
| ServerView.ServerPage.CopyInvite | src/frontend/src/components/servers/ServerView.tsx:195-209 | Without a code nothing happens. Otherwise the encoded invite URL is written to the clipboard, and on success the copied flag is set. |
| ServerView.ServerPage.SaveInviteLink | src/frontend/src/components/servers/ServerView.tsx:211-221 | Without a code nothing happens. Otherwise a save of the code is requested, and a failure is reported. |
| ServerAvatar.NextSpace | src/frontend/src/components/servers/ServerAvatar.tsx:20 | The index of the first white-space character at or after the start point, or the length when there is none; everything skipped is not white space. |
| ServerAvatar.SplitFrom | src/frontend/src/components/servers/ServerAvatar.tsx:20 | Splitting from any position gives at least one piece. |
| ServerAvatar.WordsFrom | src/frontend/src/components/servers/ServerAvatar.tsx:20 | Splitting from a non-space position of a string that ends in a non-space gives non-empty pieces without white space, the first starting at that position's character. |
| ServerAvatar.SplitWs | src/frontend/src/components/servers/ServerAvatar.tsx:20 | `split(/\s+/)` always gives at least one piece. |
| ServerAvatar.SingleWordIff | src/frontend/src/components/servers/ServerAvatar.tsx:20-21 | The split gives exactly one word iff the string has no white space. |
| ServerAvatar.WordsOfTrimmed | src/frontend/src/components/servers/ServerAvatar.tsx:20 | Splitting a non-empty trimmed name gives non-empty words without white space. The first word starts with the name's first character. |
| ServerAvatar.Initials | src/frontend/src/components/servers/ServerAvatar.tsx:19-25 | Initials are never longer than two characters. |
| ServerAvatar.InitialsOfBlank | src/frontend/src/components/servers/ServerAvatar.tsx:19-22 | A blank name gives ''. |
| ServerAvatar.InitialsFirstLetter | src/frontend/src/components/servers/ServerAvatar.tsx:19-24 | A non-blank name's initials start with the upper-cased first non-space character. |
| ServerAvatar.InitialsOfOneWord | src/frontend/src/components/servers/ServerAvatar.tsx:19-23 | A one-word name gives its first two characters upper-cased, or the whole word upper-cased when it is shorter. |
| ServerAvatar.InitialsOfTwoWords | src/frontend/src/components/servers/ServerAvatar.tsx:24 | With two or more words, the initials are exactly the upper-cased first letters of the first two words. |
| ServerAvatar.InitialsIgnorePadding | src/frontend/src/components/servers/ServerAvatar.tsx:20 | Leading and trailing white space never changes the initials. |
| ServerAvatar.AvatarFor | src/frontend/src/components/servers/ServerAvatar.tsx:30-56 | The icon image is shown iff an icon exists and no load error has been recorded. Otherwise the tile shows the initials of the server name. |
| PrincipalDisplay.DisplayName | src/frontend/src/utils/principalDisplay.ts:5-14 | '' gives 'Anonymous'. 1 to 15 characters are kept. A longer principal gives its first 8 characters, '...', and its last 4. |
| PrincipalDisplay.DisplayNameStable | src/frontend/src/utils/principalDisplay.ts:5-14 | The display name has 1 to 15 characters, and applying the function again changes nothing. |
| PrincipalDisplay.DisplayNameSharedEnds | src/frontend/src/utils/principalDisplay.ts:9-11 | Two long principals with the same first 8 and last 4 characters display alike. |
| PrincipalDisplay.PrincipalInitials | src/frontend/src/utils/principalDisplay.ts:19-24 | '' gives '?'. Otherwise the result is the first two characters upper-cased, 1 or 2 long. |
| Flags.BuildMap | src/frontend/src/utils/flags.ts:31-33 | The map's keys are exactly the list's ids, and each key maps to an entry with that id. |
| Flags.BuildMapKeepsAll | src/frontend/src/utils/flags.ts:31-33 | With distinct ids, every entry is what the map gives for its id. |
| Flags.AllowedIdsDistinct | src/frontend/src/utils/flags.ts:12-28 | The ten allowed ids are pairwise distinct and non-empty. |
| Flags.AllowedFlagsValidate | src/frontend/src/utils/flags.ts:38-56 | Every allowed flag's id validates back to that very flag. |
| Flags.FlagMapComplete | src/frontend/src/utils/flags.ts:12-33 | The map has one key per allowed flag, and each allowed flag is found under its id. |
| Flags.DistinctImageSize | src/frontend/src/utils/flags.ts:31-33 | Distinct ids give as many keys as entries. |
| Flags.ValidateFlagId | src/frontend/src/utils/flags.ts:46-49 | null, undefined and '' give null. Any result is an allowed flag with exactly the input id. An allowed id is always found. |
| Flags.GetFlagById | src/frontend/src/utils/flags.ts:54-56 | Same contract as ValidateFlagId. |
| Flags.GetAllowedFlags | src/frontend/src/utils/flags.ts:38-40 | The allow-list itself, so the ten flags come in declared order (rainbow first, fascist-italy last). Their ids are distinct and each validates to itself. |
| ServerMembers.MembersWithProfiles | src/frontend/src/hooks/useServerMembers.ts:46-54 | There is one entry per active principal, in order. Each entry has profile null, is active, and has no fetch error. |
| ServerMembers.FallbackProfile | src/frontend/src/hooks/useServerMembers.ts:71-84 | The name and overlay come from the principal helpers. The bio is '', the avatar type 'default', the colours '#FFFFFF'/'#9333EA', and there is no picture. The name is 1 to 15 characters and the overlay 1 to 2. |
| ServerMembers.MemberProfile | src/frontend/src/hooks/useServerMembers.ts:63-87 | A null principal gives no profile, no loading and no error. An error, or loading finished with no profile, gives the fallback, not loading, with the error flag passed through. Otherwise the fetched result passes through unchanged. |
| ServerMembers.ProfileOnceLoaded | src/frontend/src/hooks/useServerMembers.ts:71-86 | Once loading is done a profile is always present, and the error flag is the fetch's. |
| ProfileForm.Submission | src/frontend/src/components/profile/ProfileEditorDialog.tsx:139-166 | A blank name gives no profile. Otherwise the profile has the trimmed name and bio, avatar type 'default', the swatch's colours, the upper-cased first letter as overlay, and the given picture. |
| ProfileForm.SubmissionIgnoresPadding | src/frontend/src/components/profile/ProfileEditorDialog.tsx:142-154 | White space around the name or the bio never changes the saved profile. |
| ProfileForm.ResubmitUnchanged | src/frontend/src/components/profile/ProfileEditorDialog.tsx:148-156 | Submitting a saved-shape profile's own fields gives that profile back. |
| ProfileForm.Preview | src/frontend/src/components/profile/ProfileEditorDialog.tsx:169-177 | An empty name previews as 'Your Name' with 'Y'. Otherwise the preview shows the name and its upper-cased first character, with the bio, colours and picture as given. |
| ProfileForm.PreviewAgreesWithSubmission | src/frontend/src/components/profile/ProfileEditorDialog.tsx:148-177 | For an already trimmed, non-blank name and bio, the preview is the profile that would be saved. |
| ProfileEditor.PaletteFacts | src/frontend/src/components/profile/ProfileEditorDialog.tsx:20-33 | Twelve entries with distinct backgrounds, all with white text. |
| ProfileEditor.FindByBackground | src/frontend/src/components/profile/ProfileEditorDialog.tsx:53-57 | There is no match iff no entry has that background. A match has it. |
| ProfileEditor.FindIsFirst | src/frontend/src/components/profile/ProfileEditorDialog.tsx:53-57 | A match is an entry of the palette and no earlier entry has that background, so the first match wins. |
| ProfileEditor.FindUnique | src/frontend/src/components/profile/ProfileEditorDialog.tsx:53-57 | With distinct backgrounds, looking up an entry's background gives that entry. (The palette is at lines 20-33.) |
| ProfileEditor.Editor.constructor | src/frontend/src/components/profile/ProfileEditorDialog.tsx:39-44 | Empty name and bio, first palette entry, no picture, zero progress. |
| ProfileEditor.Editor.Rehydrate | src/frontend/src/components/profile/ProfileEditorDialog.tsx:47-77 | Closed: nothing changes. Open with a profile: its fields are copied. Open without one: everything resets to the first palette entry with no picture. |
| ProfileEditor.Editor.CopyProfile | src/frontend/src/components/profile/ProfileEditorDialog.tsx:49-66 | Name, bio and picture are copied, and the preview mirrors the picture. The colour becomes the palette match, or stays as it was without one. |
| ProfileEditor.Editor.TypeName | src/frontend/src/components/profile/ProfileEditorDialog.tsx:220 | Sets the name. |
| ProfileEditor.Editor.TypeBio | src/frontend/src/components/profile/ProfileEditorDialog.tsx:235 | Sets the bio. |
| ProfileEditor.Editor.PickColor | src/frontend/src/components/profile/ProfileEditorDialog.tsx:261 | Selects a palette entry. |
| ProfileEditor.Editor.ReportProgress | src/frontend/src/components/profile/ProfileEditorDialog.tsx:108-110 | Sets the progress only. |
| ProfileEditor.Editor.SelectPicture | src/frontend/src/components/profile/ProfileEditorDialog.tsx:88-128 | A non-image or a file over 5 MiB is reported and changes no picture. A readable image becomes the picture and the preview, and a read failure is reported. The progress is 0 afterwards whatever the outcome. |
| ProfileEditor.Editor.RemovePicture | src/frontend/src/components/profile/ProfileEditorDialog.tsx:130-137 | Remove clears both the picture and the preview. |
| ProfileEditor.Editor.Submit | src/frontend/src/components/profile/ProfileEditorDialog.tsx:139-166 | A blank name is reported and nothing is saved. Otherwise Submission(...) is saved, and on success the dialog closes. |
| ProfileEditor.Editor.PreviewProfile | src/frontend/src/components/profile/ProfileEditorDialog.tsx:169-177 | The preview built from the current fields. |
| ProfileEditor.ReopenAndSaveUnchanged | src/frontend/src/components/profile/ProfileEditorDialog.tsx:47-66 | Reopening a saved profile whose background is in the palette selects that entry, and saving without edits reproduces the profile. (The save is at lines 139-166.) |
| ProfileSetup.PaletteIsEditorPrefix | src/frontend/src/components/profile/ProfileSetupDialog.tsx:17-24 | The six setup colours are the editor palette's first six, with distinct backgrounds. |
| ProfileSetup.EnabledSubmitSaves | src/frontend/src/components/profile/ProfileSetupDialog.tsx:165 | Whenever the submit button is enabled, the submission builds a profile. (The refusal is at lines 35-48.) |
| ProfileSetup.SetupDialog.constructor | src/frontend/src/components/profile/ProfileSetupDialog.tsx:27-29 | Empty name and bio, the first of six colours. |
| ProfileSetup.SetupDialog.TypeName | src/frontend/src/components/profile/ProfileSetupDialog.tsx:106 | Sets the name. |
| ProfileSetup.SetupDialog.TypeBio | src/frontend/src/components/profile/ProfileSetupDialog.tsx:123 | Sets the bio. |
| ProfileSetup.SetupDialog.PickColor | src/frontend/src/components/profile/ProfileSetupDialog.tsx:144 | Selects one of the six colours. |
| ProfileSetup.SetupDialog.Submit | src/frontend/src/components/profile/ProfileSetupDialog.tsx:32-58 | A blank name is reported and nothing is saved. Otherwise the profile built without a picture is saved, and a failure is reported. |
| ProfileSetup.SetupDialog.PreviewProfile | src/frontend/src/components/profile/ProfileSetupDialog.tsx:61-68 | The preview falls back to 'Your Name' and 'Y', without a picture. |
| App.ProfileSetupNeedsAnswer | src/frontend/src/App.tsx:44 | Setup shows only for a signed-in user whose profile is known to be null. It never shows while loading, before the fetch, or when the profile is undefined or present. |
| App.FindServer | src/frontend/src/App.tsx:224 | There is no match iff no server has the id. A match has it. (The same test appears at line 49.) |
| App.SelectedServer | src/frontend/src/App.tsx:224 | The selected server is a loaded server with the selected id. |
| App.IsServerOwner | src/frontend/src/App.tsx:224-227 | True iff a selected server exists, an identity is present, and the server's owner is the caller. |
| App.OwnerWithUniqueIds | src/frontend/src/App.tsx:224-227 | With unique server ids, owning the server with the selected id makes the caller the owner. |
| App.DisplayProfile | src/frontend/src/App.tsx:196-208 | The header shows the caller's profile when present, and otherwise the fallback for the principal, or for '' when signed out. |
| App.Shell.constructor | src/frontend/src/App.tsx:34-41 | Nothing selected, no pending invite, dialog closed. |
| App.Shell.SelectRoom | src/frontend/src/App.tsx:212-215 | Sets the room and clears the server, so at most one is selected. |
| App.Shell.SelectServer | src/frontend/src/App.tsx:218-221 | Sets the server and clears the room. |
| App.Shell.PruneSelectedServer | src/frontend/src/App.tsx:47-54 | A selected server missing from the loaded list is cleared. Otherwise the selection stays, and any selected id left is in the list. |
| App.Shell.CheckSwitchIntent | src/frontend/src/App.tsx:57-77 | Once signed in, a stored intent is always cleared. The success notice appears only when it matches the principal, and a mismatch gives the mismatch notice. |
| App.Shell.CheckInviteParameter | src/frontend/src/App.tsx:80-93 | The invite dialog opens with the code iff a code is present and the user is signed in. |
| App.Shell.InviteConfirm | src/frontend/src/App.tsx:95-105 | Confirm clears the code, closes the dialog, selects the joined server and clears the room. |
| App.Shell.InviteCancel | src/frontend/src/App.tsx:107-113 | Cancel clears the code and closes the dialog without touching the selection. |
| SettingsDialog.LinkErrorMessage | src/frontend/src/components/settings/SettingsDialog.tsx:152-160 | The checks run in order: 'Invalid principal', then 'link to self', then 'already linked'. Otherwise the raw message, or the default. The result is never empty. |
| SettingsDialog.ClaimAdminMessage | src/frontend/src/components/settings/SettingsDialog.tsx:213-217 | 'already exists' gives the admin-exists message. Otherwise the raw message, or the default. |
| SettingsDialog.AltAccountsShownIff | src/frontend/src/components/settings/SettingsDialog.tsx:221 | The alt-accounts section shows iff there is a linked account or a non-empty list of incoming requests. Linked accounts alone suffice, incoming requests alone suffice, and missing pending data counts as none. |
| SettingsDialog.Settings.constructor | src/frontend/src/components/settings/SettingsDialog.tsx:99-100 | Empty principal text, no unlink target. |
| SettingsDialog.Settings.TypePrincipal | src/frontend/src/components/settings/SettingsDialog.tsx:364 | Sets the principal text. |
| SettingsDialog.Settings.LinkAltAccount | src/frontend/src/components/settings/SettingsDialog.tsx:139-162 | Blank text is refused with no request. A parse failure is classified. A parsed principal is requested; success clears the text and failure is classified. |
| SettingsDialog.Settings.ChooseUnlink | src/frontend/src/components/settings/SettingsDialog.tsx:336 | Sets the unlink target. |
| SettingsDialog.Settings.DismissUnlink | src/frontend/src/components/settings/SettingsDialog.tsx:401 | Clears the target. |
| SettingsDialog.Settings.Unlink | src/frontend/src/components/settings/SettingsDialog.tsx:174-185 | With no target nothing happens. Otherwise the unlink is requested, and the target is cleared only on success. |
| SettingsDialog.Settings.SwitchAccount | src/frontend/src/components/settings/SettingsDialog.tsx:187-205 | The intent is recorded before sign-out. The cache is cleared and the dialog closed only after sign-out succeeds. A failure is reported. |
| ServerInvites.GenerateErrorMessage | src/frontend/src/hooks/useServerInvites.ts:14-18 | The raw message when truthy, and otherwise 'Failed to generate invite code'. |
| ServerInvites.GenerateInvite | src/frontend/src/hooks/useServerInvites.ts:7-24 | No actor gives 'Actor not available'. Success passes through. A failure carries the normalised, non-empty message. |
| ServerInvites.JoinErrorMessage | src/frontend/src/hooks/useServerInvites.ts:40-47 | The message defaults to 'Failed to join server'. 'not found' is checked before 'already a member'. Anything else keeps its message. |
| ServerInvites.NotFoundWins | src/frontend/src/hooks/useServerInvites.ts:41-45 | A message with both phrases becomes the invalid-invite message. |
| ServerInvites.JoinWithInvite | src/frontend/src/hooks/useServerInvites.ts:29-48 | No actor gives 'Actor not available'. Success passes through. A failure carries JoinErrorMessage. |
| ServerInvites.JoinRefreshes | src/frontend/src/hooks/useServerInvites.ts:50-60 | A join invalidates 'servers' and every key whose first part is a string containing 'activeMembers'. It does not invalidate a key whose first part is not a string, or an empty key. |
| SavedServerLinks.SaveErrorMessage | src/frontend/src/hooks/useSavedServerLinks.ts:30-40 | The checks run in order: 'already saved', then 'Unauthorized', then the generic message. A missing message counts as ''. |
| SavedServerLinks.RemoveErrorMessage | src/frontend/src/hooks/useSavedServerLinks.ts:56-66 | The checks run in order: 'not found', then 'Unauthorized', then the generic message. |
| SavedServerLinks.MissingMessageIsGeneric | src/frontend/src/hooks/useSavedServerLinks.ts:32 | A missing or empty message gives the generic message. (Line 57 does the same for removal.) |
| SavedServerLinks.Attempt | src/frontend/src/hooks/useSavedServerLinks.ts:24 | Without an actor, the mutation throws 'Actor not available'. (Line 50 does the same for removal.) |
| SavedServerLinks.SaveServerLink | src/frontend/src/hooks/useSavedServerLinks.ts:18-41 | The save succeeds iff an actor exists and the call succeeds. A failure carries the classified message. |
| SavedServerLinks.RemoveSavedServerLink | src/frontend/src/hooks/useSavedServerLinks.ts:44-67 | Likewise for remove. |
| SavedServerLinks.NoActorIsGeneric | src/frontend/src/hooks/useSavedServerLinks.ts:24-40 | 'Actor not available' matches no pattern, so a missing actor surfaces as the generic message. (Lines 50-66 do the same for removal.) |
| MessageComposer.Composer.constructor | src/frontend/src/components/chat/MessageComposer.tsx:13 | Empty content, nothing posted. |
| MessageComposer.Composer.Type | src/frontend/src/components/chat/MessageComposer.tsx:47 | Sets the content. |
| MessageComposer.Composer.Submit | src/frontend/src/components/chat/MessageComposer.tsx:16-32 | Blank content is reported and nothing is posted. Otherwise the trimmed text is posted once; content is cleared on success and kept on failure. Every post is non-empty and trimmed. |
| MessageComposer.Composer.KeyDown | src/frontend/src/components/chat/MessageComposer.tsx:34-39 | Enter without Shift submits. Any other key, Shift+Enter included, changes nothing. |
| MessageComposer.EnabledSendPosts | src/frontend/src/components/chat/MessageComposer.tsx:56 | When no post is pending, Send is enabled iff the content is not blank. |
| RoomList.HighlightedRows | src/frontend/src/components/chat/RoomList.tsx:87-95 | A row is drawn highlighted iff its room id equals the selected id. |
| RoomList.HighlightOnlySelected | src/frontend/src/components/chat/RoomList.tsx:87-95 | With unique room ids, exactly the selected room's row is highlighted, so after a create (line 33) only the new room's row is. No row is highlighted when the selected id is absent or unlisted. |
| RoomList.RoomForm.constructor | src/frontend/src/components/chat/RoomList.tsx:17 | Empty name, nothing created. |
| RoomList.RoomForm.Type | src/frontend/src/components/chat/RoomList.tsx:49 | Sets the name. |
| RoomList.RoomForm.CreateRoom | src/frontend/src/components/chat/RoomList.tsx:21-39 | A blank name is reported. Otherwise the trimmed name is created. On success the input is cleared and the new id selected; on failure neither changes. Every created name is non-empty and trimmed. |
| Text.TrimStart | src/frontend/src/components/chat/MessageComposer.tsx:19 | The result is a suffix of the input, what it drops is all white space, and it does not start with white space. |
| Text.TrimEnd | src/frontend/src/components/chat/MessageComposer.tsx:19 | The result is a prefix of the input, what it drops is all white space, and it does not end with white space. |
| Text.SkipSpace | src/frontend/src/components/chat/MessageComposer.tsx:19 | The first non-white-space position at or after the start point, everything skipped being white space. |
| Text.SkipSpaceBack | src/frontend/src/components/chat/MessageComposer.tsx:19 | The position after the last non-white-space character before the end point, everything skipped being white space. |
| Text.Trim | src/frontend/src/components/chat/MessageComposer.tsx:19-20 | The result is trimmed, no longer than the input, and empty iff the input is all white space. It is the infix left once an all-space prefix and an all-space suffix are cut off. |
| Text.TrimStartOfTrimmed | src/frontend/src/components/chat/RoomList.tsx:24 | TrimStart leaves a trimmed string unchanged. |
| Text.TrimEndOfTrimmed | src/frontend/src/components/chat/RoomList.tsx:24 | TrimEnd leaves a trimmed string unchanged. |
| Text.TrimIdempotent | src/frontend/src/components/chat/RoomList.tsx:24 | Trimming twice equals trimming once. |
| Text.TrimStartSkipsSpace | src/frontend/src/components/chat/RoomList.tsx:24 | Leading white space never reaches TrimStart's result. |
| Text.TrimStartKeepsTail | src/frontend/src/components/chat/RoomList.tsx:24 | After a non-blank prefix, everything appended is kept by TrimStart. |
| Text.TrimEndSkipsSpace | src/frontend/src/components/chat/RoomList.tsx:24 | Trailing white space never reaches TrimEnd's result. |
| Text.TrimIgnoresPadding | src/frontend/src/components/chat/RoomList.tsx:24 | White space added on either side does not change the trimmed string. |
| Text.TrimIgnoresTrailingSpace | src/frontend/src/components/servers/ServerAnnouncementThread.tsx:280 | One trailing space does not change the trimmed string. |
| Text.Upper | src/frontend/src/utils/principalDisplay.ts:23 | Maps a-z to A-Z and fixes every other character. |
| Text.Lower | src/frontend/src/components/servers/ServerAnnouncementThread.tsx:282 | Maps A-Z to a-z and fixes every other character. |
| Text.UpperStr | src/frontend/src/utils/principalDisplay.ts:23 | Upper-cases the string character by character, keeping its length. |
| Text.LowerStr | src/frontend/src/components/servers/ServerAnnouncementThread.tsx:282 | Lower-cases the string character by character, keeping its length. |
| Text.Or | src/frontend/src/components/servers/ServerView.tsx:37 | JavaScript's logical or of `o` and `d` is the string in `o` when it is non-empty, and `d` otherwise. (Also used at line 35.) |
| Text.Take | src/frontend/src/utils/principalDisplay.ts:23 | The prefix of length min(n, len). |
| Text.FirstChar | src/frontend/src/components/servers/ServerAvatar.tsx:24 | `charAt(0)` is the first character, or '' for ''. |
| Text.Slice | src/frontend/src/components/servers/ServerAnnouncementThread.tsx:383 | The indices are clamped to the length, and an inverted range gives ''. |
| Text.ContainsSelf | src/frontend/src/components/servers/ServerAnnouncementThread.tsx:282 | Every string contains itself. |
| Text.LongerNotContained | src/frontend/src/components/servers/ServerAnnouncementThread.tsx:282 | A longer string is never contained. |
| Lists.SubsequenceOfSelf | src/frontend/src/components/servers/ServerAnnouncementThread.tsx:281 | Every list is a subsequence of itself. |
| Lists.Filter | src/frontend/src/components/servers/ServerAnnouncementThread.tsx:287-288 | `filter` keeps exactly the elements passing the test, each with its full multiplicity, as a subsequence in order. (Also used at line 281.) |
| Lists.FilterIdempotent | src/frontend/src/components/servers/ServerAnnouncementThread.tsx:281 | Filtering twice by one test equals filtering once. |
| LexOrder.LexLeReflexive | src/frontend/src/components/chat/RoomMemberListPanel.tsx:229 | The principal order is reflexive. |
| LexOrder.LexLeTotal | src/frontend/src/components/chat/RoomMemberListPanel.tsx:229 | The principal order is total. |
| LexOrder.LexLeAntisymmetric | src/frontend/src/components/chat/RoomMemberListPanel.tsx:229 | The principal order is antisymmetric. |
| LexOrder.LexLeTransitive | src/frontend/src/components/chat/RoomMemberListPanel.tsx:229 | The principal order is transitive. |
| UriComponent.Utf8 | src/frontend/src/components/servers/ServerView.tsx:198 | A character encodes to 1 to 4 UTF-8 bytes. |
| UriComponent.HexDigit | src/frontend/src/components/servers/ServerView.tsx:198 | A nibble becomes 0-9 or an upper-case A-F. |
| UriComponent.Percent | src/frontend/src/components/servers/ServerView.tsx:198 | A byte becomes '%' followed by two digits. |
| UriComponent.PercentAll | src/frontend/src/components/servers/ServerView.tsx:198 | Three characters per byte. |
| UriComponent.EncodeChar | src/frontend/src/components/servers/ServerView.tsx:198 | An unreserved character is kept. Any other becomes percent triples. |
| UriComponent.Encode | src/frontend/src/components/servers/ServerView.tsx:198 | The output contains only unreserved characters and '%', and is never shorter than the input. |
| UriComponent.PercentAllCharset | src/frontend/src/components/servers/ServerView.tsx:198 | Percent triples use only '%' and unreserved characters. |
| UriComponent.EncodeIdentityIff | src/frontend/src/components/servers/ServerView.tsx:198 | Encoding leaves a string unchanged iff all its characters are unreserved. (The displayed link at line 357 is not encoded.) |
| UriComponent.LeadingByte | src/frontend/src/components/servers/ServerView.tsx:198 | A byte is read only from at least three characters. |
| UriComponent.ReadBytes | src/frontend/src/components/servers/ServerView.tsx:198 | Reading k bytes consumes 3k characters. |
| UriComponent.HexDigitValue | src/frontend/src/components/servers/ServerView.tsx:198 | A hex digit reads back as its nibble. |
| UriComponent.PercentRead | src/frontend/src/components/servers/ServerView.tsx:198 | A percent triple reads back as its byte. |
| UriComponent.PercentAllRead | src/frontend/src/components/servers/ServerView.tsx:198 | Percent triples read back as their bytes. |
| UriComponent.Utf8Decodes | src/frontend/src/components/servers/ServerView.tsx:198 | The UTF-8 bytes of a character have the right lead byte and continuation bytes, and decode to the character. |
| UriComponent.DecodeEncodedChar | src/frontend/src/components/servers/ServerView.tsx:198 | An escaped character decodes back, followed by the decoding of the rest. |
| UriComponent.DecodeChar | src/frontend/src/components/servers/ServerView.tsx:198 | Any encoded character decodes back, followed by the decoding of the rest. |
| UriComponent.DecodeEncode | src/frontend/src/components/servers/ServerView.tsx:198 | Decoding an encoded string gives it back. |
| UriComponent.EncodeInjective | src/frontend/src/components/servers/ServerView.tsx:198 | Different strings encode differently. |

## Left out

- Media and peer-connection internals (`getUserMedia`, `RTCPeerConnection`, SDP generation): these are browser APIs. Each call is an opaque step that succeeds or fails with an error name, and SDP and candidate strings are uninterpreted.
- The backend and the query cache. Every mutation's outcome is a parameter. `SignalingStore` gives the voice session the semantics the panel relies on: start keeps an existing session, writes to a missing session are dropped, and end removes everything. The backend's own code is not part of this model.
- The `onicecandidate` and `ontrack` callbacks as concurrent events: each is a separate method. Polls, callbacks and the steps of two panels interleave only between whole steps. Steps after unmount are not modelled.
- VoicePanel.Panel.Join: requires `FreshCapture`, i.e. that the captured tracks start enabled, so that `isMuted` stays consistent with the stream.
- Timers: `refetchInterval`, the 2 s reset of the copied flag, and the `setTimeout` that focuses the textarea. The caret after an emoji insert is set directly.
- Toasts: error toasts are recorded (`reported`, `notices`), and so is the success notice of a completed account switch (`App.Shell.CheckSwitchIntent`, as `Info`), since it is the other half of that handler's match/mismatch decision. All other success toasts are left out.
- Console output: the skipped-candidate warning and the signalling error of a pass are logged as the calls `WarnCandidate` and `SignalingError`, since they mark where a pass skips or stops. The `console.error` lines of the join and leave handlers go with error states that are modelled, and are not logged.
- String lengths, indices and `charAt` count characters (code points) here, where JavaScript counts UTF-16 units. The two differ only for characters outside the Basic Multilingual Plane, such as most emoji. The members concerned each have a line below.
- Text.Take: counts code points, where `slice(0, n)` counts UTF-16 units, so a name beginning with an astral character keeps that whole character rather than half of it.
- Text.FirstChar: returns the first code point, where `charAt(0)` returns the first UTF-16 unit, a lone surrogate for an astral first character. This applies to the initials of ServerAvatar.Initials, PrincipalDisplay.PrincipalInitials, ProfileForm.Submission and ProfileForm.Preview.
- Text.Slice: clamps and indexes like `slice`, but in code points rather than UTF-16 units.
- ServerAnnouncements.Composer.InsertEmoji: the selection offsets and the caret advance `emoji.length` are UTF-16 units in the browser and code points here, so an astral emoji moves the caret one position here and two there.
- ServerAnnouncements.Composer.Submit: reading an attachment's bytes (`arrayBuffer`) is assumed to succeed. A failure there would skip the post request and show the error.
- ServerView.ServerPage.SelectIcon: upload progress callbacks are the separate methods ReportIconProgress and ReportBannerProgress, so progress during one upload is not interleaved with it. Reading the file's bytes is assumed to succeed.
- ServerView.ServerPage.SelectBanner: the same as for SelectIcon. Banner progress arrives through ReportBannerProgress, and reading the file's bytes is assumed to succeed.
- The banner preview in ServerView.tsx: it is only ever set to null and never read, so it is not a field.
- ServerAvatar.AvatarFor: does not model `getDirectURL` throwing.
- The image-load error in ServerAvatar.tsx: it enters as a parameter.
- `Principal.fromText` is a parse outcome parameter of SettingsDialog.Settings.LinkAltAccount. `handleAcceptRequest` is not modelled.
- Profile pictures are uploaded as an `ExternalBlob`, a URL plus bytes. Only the URL and the object-URL preview are modelled.
- ServerView.ServerPage.SaveBio: counts the bio's length in characters (code points), not the UTF-16 units of JavaScript's `length`.
- Text.Upper and Text.Lower: ASCII only, in place of Unicode `toUpperCase`/`toLowerCase`.
- LexOrder: plain lexicographic order on code points, in place of locale-sensitive `localeCompare`.
- UriComponent.Decode: accepts overlong UTF-8 forms. It is only the partner for the round trip, not a model of `decodeURIComponent`.
- `encodeURIComponent` throwing on a lone surrogate: characters here are Unicode scalar values.
- RoomMemberList.RoleLabel and RoomMemberList.RoleColor: the `default:` branches cannot be reached with four roles, so they are not modelled.
- `useMemberProfile`'s upstream `useGetUserProfile(principal!)` call on a null principal: only the branch logic is modelled.
- Float parsing of the polling interval, timestamp display, theme selection, rendering-only components and `UserAvatar.tsx` are not part of this model.
