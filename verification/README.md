# Verification of the PAM platform's core

A Dafny model of the parts of this privileged access platform that decide who may do what and that carry secrets,
with proofs over all inputs, all runs and all interleavings. `dafny verify dfyconfig.toml` checks everything.

| files | subject |
|---|---|
| `ApprovalTables`, `ApprovalMatrix`, `ApprovalMachine`, `ApprovalProvenance`, `ApprovalReadings`, `ApprovalTheorems`, `ApprovalRaces`, `ApprovalService` | the just-in-time approval workflow, one SQL statement per step, any number of calls in flight |
| `GateModel`, `GateRuns`, `GateLines`, `GateKeys`, `CmdGate`, `GateSecrets`, `GatePolicy`, `PasswordMasker` | the SSH command gate, driven from both directions, and its streaming password masker |
| `RadiusPacket`, `RadiusPassword`, `RadiusTheorems` | the RADIUS codec (RFC 2865, RFC 3579) |
| `TacacsPacket`, `TacacsBodies`, `TacacsReplies`, `TacacsLayouts` | the TACACS+ codec (RFC 8907) |
| `CiscoTables`, `CiscoTableFacts`, `CiscoCli`, `TokenExpansion`, `CommandLine`, `CommandPolicy` | IOS abbreviation expansion and the command lists |
| `PolicyEngine`, `PolicyDecision`, `PolicyRoles` | the merge of per-role policy rows |
| `VerifyCache`, `VerifyCacheTheorems`, `TokenCache` | the gateway's cache of verified tokens |
| `SessionVault`, `SessionTheorems`, `SessionBroker`, `SessionCreds` | brokered web and database sessions and their vault entries |
| `Bytes`, `Text`, `Option` | shared vocabulary |

Where the source interleaves, a state machine has one action per atomic section (a SQL statement, a stretch under a
mutex, a write), a run is any sequence of actions, and the theorems are about all runs. Where the source changes
fields, buffers or maps in place, a class or an array method does the same and is proved against the functions the
machine is made of. History kept for the proofs only is marked in the datatypes.

MD5, HMAC-MD5 and SHA-256 are uninterpreted functions. Bytes are the integers 0 to 255 and XOR works on their binary
digits. Clocks, debounce, insert failures, map and row order, and the auth-service's answers are parameters or
nondeterministic.

The specifications are written as functions and predicates; for each of them that a main result leans on, a lemma
(most are named `...Means` or `...Exactly`) says what it comes to in bytes, fields and table rows, without naming it.

## What the proofs found

Where the code and its comments or documentation disagree, the model follows the code.

- A denial can be overtaken (`internal/approval/approval.go:189-206`): two calls vote, the approver tallied before
  the denial, and the request ends approved with a denial on record; the denying call still reports "denied".
  `DenialStandsExactly` and `ReportAgreesWithRow` say exactly when this cannot happen.
- A Decide reads the target, the groups, the matrix and the approver's groups one after the other
  (`internal/approval/approval.go:143-173`), so edits between the reads can make it match a rule that governs the request
  at no moment (`RuleOfNoMoment`). `ReadingsStillGoodExactly` says when the earlier reads are still good.
- A reply's Message-Authenticator verifies exactly when the packet brought none or a first one of 16 bytes
  (`internal/radius/protocol.go:205-233`); any other length is stamped over or truncated without an error.
- NormalizeCLI strips one leading "do" at a time, so it is not idempotent on "do do ..." (`internal/policy/policy.go:235-252`),
  and there only do a command and its expansion get different verdicts.
- Decide promises the most permissive result over the roles (`internal/policy/policy.go:45-50`), but the allow lists
  are united: adding a role with an allow list to roles without one takes away the permissive default.
- Invalidating the verify cache does not propagate at once (`cmd/api-gateway/verify_cache.go:130-137`): a call that was
  already answered stores its claims afterwards. A cache full of unexpired entries is emptied by one insertion, not
  relieved of its oldest-expiring ones (`cmd/api-gateway/verify_cache.go:105-121`).
- The flag that swallows the LF of a CR LF pair is never cleared by other keys (`internal/sshproxy/cmdgate.go:349-357`).
- Enter at a password prompt forces the secret, past the debounce the comment there speaks of
  (`internal/sshproxy/cmdgate.go:389-390`), so the credit bound is about unforced injections.
- The redaction loop can leave a secret (`internal/sshproxy/cmdgate.go:222-231`). Its own round leaves one in some text
  exactly when it begins or ends with a star. And the second round can bring the first secret back: with the secrets
  "a*b" and "x", "axb" is shown as "a*b". `TwoRoundsRemoveExactly` says for which pairs.
- Session ids are made of a clock reading and the target's id. Of two launches with one id in flight, or of a launch
  with the id of an active session, a rollback can delete the other's credentials (`internal/dblaunch/launch.go:193-196`);
  `LaunchHarmlessExactly` says exactly when, and `Broker.Launch` does for a launch that nothing disturbs.
- Credential payloads are split at newlines, so a password with a newline does not come back
  (`internal/dblaunch/launch.go:227-276`).

## Model

| member | source | states |
|---|---|---|
| ApprovalTheorems.NoLostDecision | internal/approval/approval.go:175-207 | after any interleaving, with no Decide between its vote and its end: the request is pending if and only if it was never granted, holds no denial, and has fewer approvals than the last vote's threshold |
| ApprovalTheorems.NoLostDecisionFixedRule | internal/approval/approval.go:143-207 | once rules, targets and memberships stay as they are, a quiet request is pending exactly while it holds no denial and fewer approvals than the rule that governs it in the tables requires |
| ApprovalTheorems.NoLostDecisionWhileNeedHolds | internal/approval/approval.go:143-207 | the same under any edits, as long as every rule that readings from the run could match for the request asks for the same number |
| ApprovalTheorems.ApprovalSoundness | internal/approval/approval.go:136-207 | a request that is or ever was approved got there on a tally without denials, with at least as many distinct approvers as a rule matched for it requires (1 without a rule), none of them the requester; each counted vote was cast by a call for this request whose approver belonged, in tables that stood at some moment of the run, to one of the matched rule's approver groups if it has any and memberships are wired, and otherwise called in role "admin" |
| ApprovalTheorems.ApprovalSoundnessFixedRule | internal/approval/approval.go:136-207 | once rules, targets and memberships stay as they are: the threshold of the rule that governs the request in the tables was reached, and each counted approver is in one of its approver groups if it has any and memberships are wired, and otherwise called Decide in role "admin" |
| ApprovalTheorems.GoverningMeans | internal/approval/approval.go:143-160 | the rule that governs a request is the best one of the matrix for its target's kind and tier and its requester's groups, none without a matrix |
| ApprovalProvenance.AdvanceIsTraced | internal/approval/approval.go:143-182 | each statement of a call hands on what it read: the target, then the requester's groups, then the best rule for both, then the approver's groups |
| ApprovalProvenance.RunIsTraced | internal/approval/approval.go:125-207 | every run keeps each call, recorded vote and grant traced to configurations that stood during the run |
| ApprovalProvenance.MatchedIsGoverning | internal/approval/matrix.go:157-188 | with one configuration, the rule matched is the rule that governs the request |
| ApprovalReadings.RuleOfNoMoment | internal/approval/approval.go:143-160 | a concrete run: the target is read as linux while there is no rule, becomes cisco, then a linux rule is added; the call matches that rule, which governs the request in no configuration of the run |
| ApprovalReadings.ReadingsStillGoodExactly | internal/approval/approval.go:143-160 | whatever the matrix says when it is read, the rule matched is the one that governs the request, if and only if the target's row is the one read and the requester's groups are the same set as read |
| ApprovalTheorems.OnlyDecideApproves | internal/approval/approval.go:227-268 | the only step that turns a row approved is the last statement of a Decide that tallied no denial and enough approvals, on a pending row |
| ApprovalTheorems.StatusOnlyAdvances | internal/approval/approval.go:249-268 | from any state, through any actions, status never goes back to pending and denied is terminal |
| ApprovalTheorems.DenialHasACause | internal/approval/approval.go:453-467 | a denied request holds a denial vote, or was granted and then revoked |
| ApprovalTheorems.RunKeepsInv | internal/approval/approval.go:125-268 | the inductive invariant over all in-flight calls is kept by every run |
| ApprovalRaces.DenialCanBeOvertaken | internal/approval/approval.go:175-207 | a concrete run of two Decide calls: both vote, the approver tallied first and finalizes first, so a request holding a recorded denial ends approved while the denier is told "denied" |
| ApprovalRaces.DenialStandsExactly | internal/approval/approval.go:175-207 | from any state with a denial on record and the request pending: no continuation approves it if and only if no call on it has already tallied an approval |
| ApprovalRaces.ReportAgreesWithRow | internal/approval/approval.go:187-207 | the verdict a Decide reports equals the stored status if and only if the row, as the last statement starts, is pending or already carries that verdict |
| ApprovalService.AloneUpToVote | internal/approval/approval.go:125-182 | undisturbed, Decide up to its vote: the first refusal that applies and no change, or one more vote and the governing rule's threshold |
| ApprovalService.RefusedExactly | internal/approval/approval.go:125-182 | an undisturbed Decide fails as not found, closed, own request, unknown target, not an approver or already decided, each if and only if the rows it reads say so: not an approver exactly when the governing rule has approver groups, memberships are wired and the approver is in none of them, or there is no such rule and the role is not "admin"; it reports a verdict in all other cases |
| ApprovalService.MayApproveMeans | internal/approval/approval.go:162-173 | who may approve, over approver groups, memberships and role |
| ApprovalService.UndisturbedDecide | internal/approval/approval.go:125-207 | an accepted undisturbed Decide adds one vote and settles the row by the counts after it: any denial denies, otherwise enough approvals approve, otherwise it stays pending |
| ApprovalService.Service.Decide | internal/approval/approval.go:125-207 | the method returns the outcome and leaves the tables of the statement-by-statement machine run alone |
| ApprovalService.Service.Tally | internal/approval/approval.go:227-247 | the loop over the grouped rows returns the numbers of approvals and denials, in whatever order the groups come |
| ApprovalService.Service.LookUpRule | internal/approval/approval.go:143-160 | the rule that governs the request, or failure when its target does not exist |
| ApprovalService.Service.Authorize | internal/approval/approval.go:162-173 | true if and only if one of the rule's approver groups is among the approver's memberships, when the rule has any and memberships are wired, and otherwise if and only if the role is "admin" |
| ApprovalService.Service.CountAndFinalize | internal/approval/approval.go:191-207 | tally and guarded update settle the request as the specification of the last two steps says |
| ApprovalService.Service.Create | internal/approval/approval.go:53-70 | files one pending request with the caller's fields and touches no other row |
| ApprovalService.Service.Revoke | internal/approval/approval.go:453-467 | turns an approved row denied and reports whether there was one |
| ApprovalService.Service.RenewApproval | internal/approval/approval.go:516-533 | renews an approved row only, and reports whether there was one |
| ApprovalService.Service.GrantSudo | internal/approval/approval.go:536-550 | sets only the sudo flag; reports a missing request |
| ApprovalMatrix.AnyIntersection | internal/approval/approval.go:323-334 | true if and only if the two id lists share an id |
| ApprovalMatrix.BestRuleIsMostSpecific | internal/approval/matrix.go:157-188 | the specified rule applies (kind, tier and requester groups filter), and no applying rule comes before it by kind match, then priority, then id |
| ApprovalMatrix.AppliesMeans | internal/approval/matrix.go:157-188 | when a rule applies, over its kind, tier bounds and requester groups |
| ApprovalMatrix.BestRuleMeans | internal/approval/matrix.go:157-188 | the best rule is one that applies and no other comes before it by kind match, priority and id, all three written out |
| ApprovalMatrix.ScanFindsBestRule | internal/approval/matrix.go:157-188 | scanning the ordered rows for the first one that fits the requester's groups finds that rule |
| ApprovalMatrix.FindRule | internal/approval/matrix.go:157-188 | the loop returns that rule, or none when none applies |
| ApprovalMatrix.UpdateKeepsThresholds | internal/approval/matrix.go:79-137 | created and updated rules keep every threshold at 1 or more |
| ApprovalMatrix.DeleteKeepsThresholds | internal/approval/matrix.go:140-150 | deleting a rule keeps the other rules' thresholds |
| GateRuns.EnableSecretCredit | internal/sshproxy/cmdgate.go:83-200 | in every run and interleaving, unforced secret injections never outnumber the accepted enable lines plus the output chunks that leave a "[sudo]" prompt; a pending injection implies an expected password |
| GateRuns.UpstreamConservation | internal/sshproxy/cmdgate.go:333-445 | in every run, the bytes sent upstream, less secrets and interrupts, are the user's bytes at the kept positions, in order and once each; every forwarded line end belongs to an ignored line, an empty command or an accepted one; one interrupt for each denial (KeptExactly says which positions are kept) |
| GateKeys.KeptExactly | internal/sshproxy/cmdgate.go:333-445 | in every run, by position: a byte is kept if and only if its chunk was not dropped (privileged when it came, and holding the secret), no password was awaited when it was checked, and, if it ends a line, it is no line feed to be skipped, no injection is due, and the line was ignored, empty or allowed; the line is what the screen shows after its prompt, or else what was typed |
| GateKeys.HistoryIsFaithful | internal/sshproxy/cmdgate.go:333-395 | what each action notes of the gate for the bytes it takes, checks or decides: the gate as it stood then, once per byte |
| GateKeys.KeyIsWritten | internal/sshproxy/cmdgate.go:358-371 | a key that ends no line is kept and is the next thing its side writes, whatever happens in between |
| GateKeys.DeviceReceives | internal/sshproxy/cmdgate.go:333-445 | without a credential, in every run whose input is used up: the device has received, in order, exactly the input less the line feeds a pending CR swallows and the line ends of denied lines, with one interrupt for each of those lines and no secret |
| GateKeys.PendingMeans | internal/sshproxy/cmdgate.go:349-357 | a carriage return is pending if and only if some CR has no LF behind it |
| GateKeys.SelectedMeans | internal/sshproxy/cmdgate.go:333-375 | the selected bytes are those at the marked positions, each once and in order |
| GateKeys.UserBytesMeans | internal/sshproxy/cmdgate.go:333-375 | the user's bytes on the wire are those written as keys and line ends, each once and in order |
| GateRuns.CreditStep | internal/sshproxy/cmdgate.go:90-200 | each step of either side keeps the credit invariant |
| GateRuns.FlowStep | internal/sshproxy/cmdgate.go:333-445 | each step of either side keeps the conservation invariant |
| GateLines.SilentDeviceJudgesTypedText | internal/sshproxy/cmdgate.go:287-445 | no credential, silent device: for every input and chunking the judged lines are exactly the net typed texts of the entered lines |
| GateLines.JudgedOnTypedTextExactly | internal/sshproxy/cmdgate.go:287-445 | no credential, any device output: one line is judged for each Enter, and it is the net typed text if and only if no chunk since the Enter before left a password prompt on the screen and the screen shows that text or nothing after its prompt; the screen is what the device wrote since the gate last forgot its mirror, which it does for a denied line |
| GateLines.EchoedLineJudgesTypedText | internal/sshproxy/cmdgate.go:99-137 | in every run without a credential: the Enter that comes while the screen shows a prompt, blanks and the net typed text, with no password prompt since the Enter before, is judged on that text |
| GateLines.PlainEchoJudgesTypedText | internal/sshproxy/cmdgate.go:287-302 | in every run without a credential: if the device echoed after a prompt, in any chunks, just the plain line the user typed, the Enter is judged on that line |
| GateLines.LineFeedJudgedExactly | internal/sshproxy/cmdgate.go:349-357 | in every run without a credential, a line feed is judged if and only if no earlier CR is still pending, whatever was typed since |
| GateLines.PairingExactly | internal/sshproxy/cmdgate.go:349-357 | that is CR LF pairing if and only if no line feed has an earlier pending CR that is not right before it |
| GateLines.SwallowedLineFeed | internal/sshproxy/cmdgate.go:349-357 | a witness: after CR and a key, LF is swallowed where pairing would enter a line |
| GatePolicy.DeniedLineIsNeverEntered | internal/sshproxy/cmdgate.go:397-445 | under every schedule no line end is forwarded for a line whose normal form begins with that of a deny pattern and is not session control, outside password prompts and whatever the allow list |
| GatePolicy.DeniedWithArgumentsIsNeverEntered | internal/sshproxy/cmdgate.go:397-445 | the same for a deny pattern followed by arguments |
| GatePolicy.ForwardedLineIsListed | internal/sshproxy/cmdgate.go:397-445 | under every schedule: with an allow list, the end of a line that is neither ignored nor empty nor session control is forwarded only if the line's normal form begins with that of a pattern on the list; and never if it begins with that of a deny pattern |
| GateSecrets.EnterSendsSecret | internal/sshproxy/cmdgate.go:377-395 | Enter while a password is awaited sends the enable secret, or else the portal password, and a CR, and not the Enter |
| GateSecrets.EnterOutcomes | internal/sshproxy/cmdgate.go:397-445 | Enter otherwise: nothing goes out when an injection is due; the device is interrupted and both mirrors are cleared exactly when the line is neither ignored nor empty and the policy refuses it; else the Enter goes out, and an accepted enable line with a credential opens the password flow |
| GateSecrets.PromptSendsSecret | internal/sshproxy/cmdgate.go:90-200 | a chunk that leaves one of the three prompt words on the screen, while the flow is open and nothing was sent, sends the secret once |
| GateSecrets.SudoSendsSecret | internal/sshproxy/cmdgate.go:147-157 | so does a chunk that leaves sudo's password prompt when there is a portal password, even after a secret was sent |
| GateSecrets.PromptClosesFlow | internal/sshproxy/cmdgate.go:125-137 | a chunk that leaves a line ending in "#" or ">" closes the flow, sends nothing, and makes the device count as privileged if and only if it is "#" |
| GateSecrets.CreditsAreCounted | internal/sshproxy/cmdgate.go:138-157 | credit is given once for each accepted enable line, and for a chunk that leaves a "[sudo]" password prompt when there is a portal password; for nothing else |
| GateSecrets.AfterPromptMeans | internal/sshproxy/cmdgate.go:287-302 | what stands after the prompt is the longest end of the line without "#", ">" or "$" |
| CmdGate.WireOne | internal/sshproxy/cmdgate.go:173-200 | what each write puts on the wire: a key's byte, a secret with a CR, the enable secret before the portal password, or the byte 3 |
| CmdGate.CommandGate.Write | internal/sshproxy/cmdgate.go:333-375 | a chunk of keystrokes leaves the fields and the wire that the machine's keystroke side leaves when it runs alone, and keeps both invariants |
| CmdGate.CommandGate.NoteOutput | internal/sshproxy/cmdgate.go:90-158 | a chunk of output leaves the fields and the wire that the machine's output side leaves when it runs alone, and keeps both invariants |
| CmdGate.CommandGate.HandleLineEnd | internal/sshproxy/cmdgate.go:397-445 | the line end is swallowed, forwarded, denied or opens the enable flow, as the machine's steps say |
| CmdGate.CommandGate.HandlePasswordKeystroke | internal/sshproxy/cmdgate.go:377-395 | while a password is awaited every key is consumed and Enter forces the secret |
| CmdGate.CommandGate.TryAutoInjectEnable | internal/sshproxy/cmdgate.go:162-171 | one pending injection is taken and at most one secret sent |
| CmdGate.CommandGate.SendEnableSecret | internal/sshproxy/cmdgate.go:173-200 | the secret goes out exactly when not privileged, a credential exists, and it is forced or neither already sent nor recent |
| CmdGate.CommandGate.ResetLineMirror | internal/sshproxy/cmdgate.go:278-285 | clears the two mirrors, the ignore flag and the pending injection, and nothing else |
| CmdGate.GateAwareWriter.Write | internal/sshproxy/cmdgate.go:452-458 | the gate sees the unmasked chunk; the user is shown, behind what was shown before, the masking of the chunk after both replacement rounds, as many bytes as the device sent, each the device's or a star |
| CmdGate.KeystrokesKeep | internal/sshproxy/cmdgate.go:333-375 | a chunk handled alone is a run, so it keeps the credit and conservation invariants |
| PasswordMasker.StarredExactlyAfterPrompt | internal/sshproxy/cmdgate.go:236-276 | a byte comes out as a star if and only if it is printable and not blank and an earlier byte of its line completes a prompt, or it was a star |
| PasswordMasker.StarredOnlyAfterPrompt | internal/sshproxy/cmdgate.go:236-276 | in letters: a byte that does not come out as it was is a star for a printable nonblank, and "password:", "passphrase:" or "secret:" ends before it on its line, each letter small or capital |
| PasswordMasker.StarredAfterPrompt | internal/sshproxy/cmdgate.go:236-276 | the converse: behind such a word, to the end of the line, every printable nonblank comes out as a star and every other byte as it was |
| PasswordMasker.StarredInsideSecret | internal/sshproxy/cmdgate.go:229 | a replacement changes a byte only into a star and only inside an occurrence of the secret |
| PasswordMasker.ArmedByPromptOnLine | internal/sshproxy/cmdgate.go:236-276 | masking is on exactly when some position of the current line completes a prompt word |
| PasswordMasker.WindowSuffices | internal/sshproxy/cmdgate.go:258-273 | the last 16 bytes of the line decide whether a prompt word has just been completed |
| PasswordMasker.NextTracks | internal/sshproxy/cmdgate.go:240-274 | one byte keeps window and flag in line with the whole-line specification |
| PasswordMasker.MaskedConcat | internal/sshproxy/cmdgate.go:236-276 | masking a stream does not depend on how it is cut into chunks |
| PasswordMasker.Masker.StreamMaskPassword | internal/sshproxy/cmdgate.go:236-276 | the windowed loop returns the whole-line specification's masking of the chunk after everything seen |
| PasswordMasker.TwoRoundsRemoveExactly | internal/sshproxy/cmdgate.go:222-231 | both rounds of the loop: of two secrets with no star at either end, both are gone from every text if and only if starring the second cannot complete the first, that is, not (the first does not hold the second, and has a run of stars of its length before which the second would not begin earlier) |
| PasswordMasker.SurvivalCompletes | internal/sshproxy/cmdgate.go:222-231 | when the first secret shows after both rounds, starring the second can complete it |
| PasswordMasker.CompletionSurvives | internal/sshproxy/cmdgate.go:222-231 | when it can, the first secret with the second in place of those stars comes out of both rounds as the first secret |
| PasswordMasker.CompletedSecret | internal/sshproxy/cmdgate.go:222-231 | a witness: with the secrets a*b and x, the chunk axb comes out as a*b |
| PasswordMasker.RedactionRemovesExactly | internal/sshproxy/cmdgate.go:229 | one replacement removes a secret from every text if and only if the secret neither begins nor ends with a star |
| PasswordMasker.ReplaceHides | internal/sshproxy/cmdgate.go:229 | after its own replacement a secret with no star at either end does not occur |
| PasswordMasker.LeadingStarSurvives | internal/sshproxy/cmdgate.go:229 | a secret that begins with a star survives its own replacement in itself followed by its tail |
| PasswordMasker.TrailingStarSurvives | internal/sshproxy/cmdgate.go:229 | a secret that only ends with one survives its own replacement in its front followed by itself |
| PasswordMasker.Masker.FilterDownstream | internal/sshproxy/cmdgate.go:217-232 | the output is the whole-line masking of the chunk after both replacement rounds, exactly; so it has the same length, every byte is the device's or a star, and no configured star-free secret is in it |
| RadiusTheorems.AuthenticatorsAgree | internal/radius/protocol.go:167-276 | for every Access-Accept, Access-Reject and Access-Challenge with a secret: bytes 4 to 20 are the RFC 2865 section 3 digest, and with the request's authenticator put back the Message-Authenticator verifies if and only if the packet brought none or its first one has 16 bytes |
| RadiusTheorems.ResponseAuthenticator | internal/radius/protocol.go:234-249 | every reply with code 2, 3, 5 or 11 carries that digest in bytes 4 to 20, whatever the secret |
| RadiusTheorems.WireLayout | internal/radius/protocol.go:167-204 | a packet on the wire: code, identifier, its size with the high byte first, authenticator, attributes |
| RadiusTheorems.AttributeLayout | internal/radius/protocol.go:167-204 | an attribute on the wire: type, its size with the two bytes in front, value |
| RadiusTheorems.MacVerifiesMeans | internal/radius/protocol.go:254-276 | a Message-Authenticator verifies if and only if it is the keyed hash of the packet with the first value of type 80 zeroed |
| RadiusTheorems.AcceptedIsWellFormed | internal/radius/protocol.go:120-160 | accepted buffers have 20 bytes at least, a length field within 20, 4096 and the buffer, and attributes that fill it up to there exactly; these and the header fields are what the packet holds |
| RadiusTheorems.WellFormedIsAccepted | internal/radius/protocol.go:120-160 | every such buffer is accepted, unless it is an Access-Request with a Message-Authenticator that does not verify |
| RadiusTheorems.ReplyRoundTrip | internal/radius/protocol.go:120-250 | decoding an encoded reply gives the code, identifier and authenticator, and the attributes as stamped |
| RadiusTheorems.RequestRoundTrip | internal/radius/protocol.go:120-250 | decoding an encoded Access-Request without a Message-Authenticator value, values up to 253 bytes and 4096 in all, with any bytes behind it, gives the packet back |
| RadiusTheorems.AcceptedRequestRewrites | internal/radius/protocol.go:120-250 | every Access-Request that Decode accepts, with or without a Message-Authenticator, encodes back to its buffer cut to the length field |
| RadiusTheorems.ParseWritten | internal/radius/protocol.go:134-147 | the attribute loop inverts the layout and ends exactly at the length |
| RadiusTheorems.ParsedRewrites | internal/radius/protocol.go:134-147 | attributes that were parsed write back as the bytes they came from |
| RadiusTheorems.MacOfStamped | internal/radius/protocol.go:205-233 | a stamped Message-Authenticator verifies if and only if its room is 16 bytes |
| RadiusTheorems.ZeroMacOfWritten | internal/radius/protocol.go:254-276 | the byte walk zeroes exactly the first Message-Authenticator of the attribute list |
| RadiusPacket.AttributeList.Add | internal/radius/protocol.go:99-104 | appends the value cut at 253 bytes and keeps the list encodable |
| RadiusPacket.Encode | internal/radius/protocol.go:167-250 | the filled, zeroed and twice stamped buffer is the specified packet, and none beyond 4096 bytes |
| RadiusPacket.StampMac | internal/radius/protocol.go:205-233 | finding, zeroing and stamping in place equals replacing the first Message-Authenticator by the keyed hash |
| RadiusPacket.ReplaceIsSplice | internal/radius/protocol.go:205-233 | overwriting a value in the buffer equals replacing the attribute |
| RadiusPacket.Decode | internal/radius/protocol.go:120-160 | accepts exactly the well-formed buffers whose Access-Request authenticator verifies, and returns their packet |
| RadiusPacket.ReadAttrs | internal/radius/protocol.go:134-147 | the loop returns the specified attributes or fails on the first ill-sized one |
| RadiusPacket.VerifyMessageAuthenticator | internal/radius/protocol.go:254-276 | true if and only if the hash over the packet with its first Message-Authenticator zeroed is the given one |
| RadiusPacket.Get | internal/radius/protocol.go:77-84 | the first value of a type, nothing when there is none |
| RadiusPassword.PasswordRoundTrip | internal/radius/protocol.go:289-348 | decoding an encoded password gives its first 128 bytes less trailing NULs, for every secret and authenticator; the encoding has 16 to 128 bytes, a multiple of 16 |
| RadiusPassword.PasswordIsHidden | internal/radius/protocol.go:319-348 | byte j of block k on the wire, XORed with the password's byte there, or a NUL behind its end, is byte j of MD5(secret, block before it on the wire), the request authenticator standing before the first |
| RadiusPassword.PasswordIsRevealed | internal/radius/protocol.go:289-314 | the same of what is read, trailing NULs cut off |
| RadiusPassword.RevealHide | internal/radius/protocol.go:289-348 | the chained unmasking undoes the chained masking |
| RadiusPassword.EncodeUserPassword | internal/radius/protocol.go:319-348 | the padded, block-by-block loop computes the specified chain (PasswordIsHidden says what that is on the wire) |
| RadiusPassword.DecodeUserPassword | internal/radius/protocol.go:289-314 | the inverse loop with its two error cases, trailing NULs stripped (PasswordIsRevealed) |
| Bytes.XorSeqInvolutive | internal/radius/protocol.go:299-306 | masking twice with the same bytes gives the original |
| Bytes.XorDigits | internal/radius/protocol.go:299-306 | binary digit i of the XOR of two bytes is 1 if and only if their digits i differ |
| TacacsPacket.PacketRoundTrip | internal/tacacs/protocol.go:98-186 | reading a written packet returns the header with its length set to the body's size, the body, and leaves what follows unread |
| TacacsPacket.OversizedIsRefused | internal/tacacs/protocol.go:98-186 | a body over the cap is written, but its header is refused on reading |
| TacacsPacket.HeaderRoundTrip | internal/tacacs/protocol.go:98-127 | the twelve header bytes read back as the header |
| TacacsPacket.KeystreamPrefix | internal/tacacs/protocol.go:142-160 | the keystream for n bytes is a prefix of the one for any m at least n |
| TacacsPacket.ObfuscateTwice | internal/tacacs/protocol.go:131-139 | obfuscating twice gives the body back |
| TacacsPacket.BodyIsMasked | internal/tacacs/protocol.go:131-139 | byte i of a masked body, XORed with the clear one, is byte i of the keystream, unless the unencrypted flag is set or there is no key; then they are the same |
| TacacsPacket.KeystreamIsChained | internal/tacacs/protocol.go:142-160 | block k of the keystream is the MD5 of the session id, high byte first, the key, the version and the sequence number, and, but for the first, block k - 1 |
| TacacsPacket.HeaderLayout | internal/tacacs/protocol.go:118-127 | the twelve header bytes, spelled out |
| TacacsPacket.MakeStream | internal/tacacs/protocol.go:142-160 | the growing loop returns the first n bytes of the chained MD5 blocks |
| TacacsPacket.Obfuscate | internal/tacacs/protocol.go:131-139 | the array is XORed in place with the keystream, or left alone when unencrypted or without a key |
| TacacsPacket.ReadHeader | internal/tacacs/protocol.go:98-115 | a short read, an oversized length, or the header; exactly twelve bytes are consumed |
| TacacsPacket.ReadBody | internal/tacacs/protocol.go:163-173 | a short read, or the clear body; exactly its length is consumed |
| TacacsPacket.WritePacket | internal/tacacs/protocol.go:176-186 | appends the header with the true length and the obfuscated body |
| TacacsBodies.ParseAuthenStart | internal/tacacs/protocol.go:207-233 | accepts exactly the buffers that begin with a START as RFC 8907 section 5.1 lays it out, and returns it |
| TacacsBodies.ParseAuthenContinue | internal/tacacs/protocol.go:264-280 | the same for section 5.3 |
| TacacsBodies.ParseAuthorRequest | internal/tacacs/protocol.go:297-337 | the same for section 6.1, arguments included |
| TacacsBodies.ParseAcctRequest | internal/tacacs/protocol.go:393-425 | too short below nine bytes; of the others, accepts exactly those that begin with a REQUEST as section 7.1 lays it out, and returns it; otherwise it indexes out of range |
| TacacsBodies.StartIsInverse | internal/tacacs/protocol.go:207-233 | parser and layout of START are inverse to each other |
| TacacsBodies.AuthorIsInverse | internal/tacacs/protocol.go:297-337 | parser and layout of the authorization REQUEST are inverse to each other |
| TacacsBodies.AcctIsInverse | internal/tacacs/protocol.go:393-425 | parser and layout of the accounting REQUEST are inverse to each other |
| TacacsLayouts.StartBytes | internal/tacacs/protocol.go:207-233 | the START of section 5.1, byte by byte, and the field sizes that fit it |
| TacacsLayouts.ContinueBytes | internal/tacacs/protocol.go:264-280 | the CONTINUE of section 5.3, byte by byte, and the field sizes that fit it |
| TacacsLayouts.ArgBytes | internal/tacacs/protocol.go:297-337 | each argument's length stands in its place among the lengths, and the argument in its place among the arguments |
| TacacsLayouts.AuthorBytes | internal/tacacs/protocol.go:297-337 | the authorization REQUEST of section 6.1, byte by byte |
| TacacsLayouts.AcctBytes | internal/tacacs/protocol.go:393-425 | the accounting REQUEST of section 7.1, byte by byte |
| TacacsReplies.AuthenReplyRoundTrip | internal/tacacs/protocol.go:244-254 | a reader built from section 5.2 gives the REPLY back if and only if its fields fit their length fields |
| TacacsReplies.AcctReplyRoundTrip | internal/tacacs/protocol.go:435-444 | a reader built from section 7.2 gives the REPLY back if and only if its fields fit their length fields |
| TacacsReplies.AuthorReplyRoundTrip | internal/tacacs/protocol.go:348-375 | a reader built from section 6.2 gives the REPLY back if and only if arguments, message and data fit their length fields |
| TacacsLayouts.ReplyBytes | internal/tacacs/protocol.go:244-254 | the three REPLYs of sections 5.2, 7.2 and 6.2, byte by byte, when their fields fit |
| TacacsReplies.AuthenReplyBytes | internal/tacacs/protocol.go:244-254 | the filled array is the layout with wrapped lengths |
| TacacsReplies.AcctReplyBytes | internal/tacacs/protocol.go:435-444 | the filled array is the layout with wrapped lengths |
| TacacsReplies.AuthorReplyBytes | internal/tacacs/protocol.go:348-375 | the filled array is the layout with wrapped lengths |
| CommandPolicy.NormalizeCliIdempotent | internal/policy/policy.go:235-252 | normalizing is idempotent if and only if the command does not begin with two "do"s and something more |
| CommandPolicy.SameVerdictAsExpansion | internal/policy/policy.go:208-252 | all allow and deny lists judge a command and its expansion alike, if and only if there is no double "do" or what remains is session control |
| CommandPolicy.DenyCoversAllArguments | internal/policy/policy.go:208-252 | a deny pattern denies itself followed by any arguments, whatever else is listed, if and only if its normal form is neither empty nor just "do" |
| CommandPolicy.IosTablesAreLawful | internal/policy/cisco_cli.go:10-142 | every word the IOS tables produce from another one is a fixed point of all tables, under every parent |
| CommandPolicy.DoInIos | internal/policy/cisco_cli.go:10-142 | nothing else expands to "do", and "do" is no parent of anything |
| CommandPolicy.KeptIsFinal | internal/policy/cisco_cli.go:10-142 | each vocabulary keyword is looked up as nothing but itself |
| TokenExpansion.TokenSettles | internal/policy/cisco_cli.go:159-199 | with lawful tables, expanding the expansion of any token in its place changes nothing |
| TokenExpansion.TokenKeepsWord | internal/policy/cisco_cli.go:159-178 | words expand to words |
| TokenExpansion.DoIsNoParent | internal/policy/cisco_cli.go:180-199 | a leading "do" does not change how what follows expands |
| TokenExpansion.IsCiscoLiteral | internal/policy/cisco_cli.go:214-236 | true if and only if the token is a help character, has digits and no letters, or holds an address mark |
| CiscoCli.CiscoUniquePrefix | internal/policy/cisco_cli.go:201-212 | the one keyword that a text begins, if exactly one does |
| CiscoCli.ExpandCiscoTokens | internal/policy/cisco_cli.go:144-157 | the loop expands each token with up to three expanded words before it |
| CiscoCli.ExpansionIsCausal | internal/policy/cisco_cli.go:144-157 | expanding a prefix of the tokens gives a prefix of the expansion |
| CiscoCli.ExpansionSettles | internal/policy/cisco_cli.go:144-178 | for settling expanders, expanding an expanded line changes nothing |
| CommandLine.CommandAllowed | internal/policy/policy.go:208-229 | true for session control; for any other command if and only if no deny pattern's normal form is a nonempty prefix of the command's normal form and, when there is an allow list, some allow pattern's is |
| CommandPolicy.CliVerdict | internal/policy/policy.go:208-229 | the same over NormalizeCLI with the IOS tables |
| CommandPolicy.TypicalExpansions | internal/policy/policy.go:235-252 | "sh run", "do sh run" and "conf t" as an operator types them |
| CommandPolicy.CommandAndObject | internal/policy/cisco_cli.go:144-236 | a known command abbreviation and an object abbreviation known behind it normalize to the two full words |
| CommandLine.CaseDoesNotMatter | internal/policy/policy.go:235-252 | two texts that differ in case only have one normal form |
| CommandLine.NormalizeIdempotent | internal/policy/policy.go:235-252 | idempotence if and only if no double "do", for every regular expander |
| CommandLine.DenyCoversExactly | internal/policy/policy.go:208-229 | deny coverage, both directions, for every regular expander |
| CommandLine.SameVerdictsExactly | internal/policy/policy.go:208-229 | equal verdicts, both directions, for every regular expander |
| PolicyEngine.Decide | internal/policy/policy.go:51-145 | what the answer grants is what the roles' rows that reach the tier grant together, the lists in any order without repeats |
| PolicyDecision.DecisionMeans | internal/policy/policy.go:51-145 | the answer allows if and only if a row speaks for one of the roles, asks for approval if and only if one of these rows does, and lists exactly the commands on their lists |
| PolicyDecision.PrivilegesMean | internal/policy/policy.go:125-126 | the Linux privilege and the Cisco level are no lower than those of any row that speaks for a role, levels capped at 15, and are those of one such row, or none and 0 |
| PolicyDecision.ReachingMeans | internal/policy/policy.go:74-114 | the row that speaks for a role names the role and a matching kind, reaches the target's tier, and none that does the first two is more specific; when none speaks, each such row has one at least as specific that does not reach the tier |
| PolicyDecision.KindsMean | internal/policy/policy.go:148-167 | the matching kinds: "*", the exact kind, its family, and "linux" for the Linux families |
| PolicyDecision.ItemsMean | internal/policy/policy.go:180-193 | a list is cut at every comma and nowhere else; its items are the trimmed parts that are not empty |
| PolicyEngine.PolicyMatchKinds | internal/policy/policy.go:148-167 | exactly the kinds that match, each once, in any order |
| PolicyEngine.SplitCsv | internal/policy/policy.go:180-193 | the trimmed nonempty items in order |
| PolicyEngine.PickIsMostSpecific | internal/policy/policy.go:75-93 | the picked row matches and no matching row is more specific; none is picked only when none matches |
| PolicyEngine.DecisionDependsOnRoleSet | internal/policy/policy.go:51-145 | order and repeats of roles do not matter: equal role sets give equal decisions, lists as sets |
| PolicyEngine.MoreRolesGrantMore | internal/policy/policy.go:74-127 | more roles never lose the permission, the need for approval, an allowed or denied command, or a Linux or Cisco privilege |
| PolicyEngine.GrantsIsUnique | internal/policy/policy.go:115-127 | a set of rows grants one outcome only |
| PolicyEngine.LinuxMergeIsJoin | internal/policy/linux.go:23-49 | merging Linux privileges is the least upper bound, whatever the order and spelling |
| PolicyEngine.CiscoMergeIsJoin | internal/policy/cisco.go:28-53 | merging Cisco levels is the least upper bound within 0 to 15 |
| PolicyRoles.VerdictDependsOnSets | internal/policy/policy.go:208-229 | the command check reads its lists as sets |
| PolicyRoles.MoreRowsRunMore | internal/policy/policy.go:115-142 | more rows that deny nothing new let run no less, if and only if some of the fewer rows lists allowed commands or none of the more does |
| PolicyRoles.MoreRolesRunMore | internal/policy/policy.go:45-51 | of two users whose rows deny the same commands, the one with more roles may run every command the other may, if and only if some row of the smaller role set lists allowed commands or none of the larger does |
| VerifyCacheTheorems.BoundedStaleness | cmd/api-gateway/verify_cache.go:65-128 | in every run, served claims come from a successful verify of a token with the same hash: this call's own, or stored less than 60 s before the call began, or less than 5 min before a call that could not reach the service; never more than 4096 entries |
| VerifyCacheTheorems.FreshIsServedExactly | cmd/api-gateway/verify_cache.go:65-78 | a call that reads an entry before its expiry is served it and asks nobody; any other goes on to ask |
| VerifyCacheTheorems.FallbackIsServedExactly | cmd/api-gateway/verify_cache.go:79-94 | a call that cannot reach the service is served the entry it read if and only if that has not gone stale; a refused one nothing |
| VerifyCacheTheorems.NextCallIsServed | cmd/api-gateway/verify_cache.go:65-128 | right after claims were stored, the next call for the hash is served them from the cache if and only if the clock was read for them less than 60 s ago |
| VerifyCacheTheorems.SweepRemovesOnlyTheUseless | cmd/api-gateway/verify_cache.go:139-156 | in every run a sweep changes nothing for any call whose clock reading is not before the sweep's |
| VerifyCacheTheorems.InvalidationIsFinal | cmd/api-gateway/verify_cache.go:133-137 | calls begun after an invalidation get only claims verified after it, whatever follows, if and only if no call in flight holds verified claims still to be stored as a usable entry |
| VerifyCacheTheorems.StoredAgain | cmd/api-gateway/verify_cache.go:79-83 | such a call puts its claims back and the next call for the token is served them |
| VerifyCacheTheorems.RunKeeps | cmd/api-gateway/verify_cache.go:65-156 | the provenance invariant is kept by every run |
| VerifyCache.PutKeepsSize | cmd/api-gateway/verify_cache.go:101-128 | storing leaves at most 4096 entries, whatever is evicted |
| VerifyCache.PutKeepsUnexpired | cmd/api-gateway/verify_cache.go:101-128 | storing keeps all unexpired entries of other tokens, if and only if the cache has room or an expired entry |
| TokenCache.MethodIsCallAlone | cmd/api-gateway/verify_cache.go:65-94 | the method's result and map are those of the steps of one uninterrupted call |
| TokenCache.TokenCache.VerifyTokenCached | cmd/api-gateway/verify_cache.go:65-94 | an entry before its expiry, else the service's answer, else, when it cannot be reached, an entry not yet stale; a verified answer alone is stored, for 60 s and 5 min, and the other entries kept are as they were |
| TokenCache.TokenCache.VerifyCachePut | cmd/api-gateway/verify_cache.go:101-128 | eviction and insertion give a map the specification allows, for any map order |
| TokenCache.TokenCache.Evict | cmd/api-gateway/verify_cache.go:109-117 | the loop drops expired entries only, all of them or a quarter of the cap |
| TokenCache.TokenCache.DropStale | cmd/api-gateway/verify_cache.go:147-151 | the loop leaves exactly the entries whose last deadline is not past |
| TokenCache.TokenCache.InvalidateVerifyCache | cmd/api-gateway/verify_cache.go:133-137 | empties the map |
| SessionTheorems.CredentialsTrackSessions | internal/sessions/end.go:24-80 | in every interleaving of ends and of launches that are harmless where they begin (a fresh id always is), an active web or db session has exactly the credentials its launch stored; with none in flight, an entry exists if and only if the session is active |
| SessionTheorems.LaunchHarmlessExactly | internal/dblaunch/launch.go:142-196 | from any state of the machine that has the invariant: a launch never costs an active session its credentials, whatever harmless calls follow, if and only if no other launch in flight is to insert its id, or the row is there already and is ended or about to be superseded by this very launch |
| SessionTheorems.SharedIdHarms | internal/dblaunch/launch.go:182-196 | the run in which one of two launches of an id loses its credentials |
| SessionTheorems.ActiveIdHarms | internal/dblaunch/launch.go:182-196 | the run in which a launch takes away an active session's credentials |
| SessionTheorems.RunKeeps | internal/dblaunch/launch.go:182-196 | the invariant linking rows, vault and calls in flight is kept by every run |
| SessionTheorems.PuttingKeeps | internal/weblaunch/launch.go:173-175 | storing credentials disturbs no other session |
| SessionTheorems.InsertKeeps | internal/weblaunch/launch.go:181-188 | inserting the row, or failing to, keeps the invariant |
| SessionTheorems.RollingBackKeeps | internal/dblaunch/launch.go:193-196 | the rollback takes away only this launch's credentials |
| SessionTheorems.DeletingKeeps | internal/sessions/end.go:40-49 | deleting after the update takes away only the ended session's credentials |
| SessionVault.SecretsAreDistinct | internal/sessions/end.go:12-20 | different sessions have different vault entries |
| SessionBroker.RollBackKeepsStep | internal/dblaunch/launch.go:182-196 | a launch that fails to insert keeps rows and vault in step if and only if no active session has its id |
| SessionBroker.InsertKeepsStep | internal/dblaunch/launch.go:182-196 | a launch that succeeds keeps rows and vault in step |
| SessionBroker.EndingKeepsStep | internal/sessions/end.go:24-51 | ending any active sessions keeps rows and vault in step |
| SessionBroker.Broker.End | internal/sessions/end.go:24-51 | ends an active row and deletes its entry; otherwise changes nothing and says so |
| SessionBroker.Broker.EndActiveForUserTarget | internal/sessions/end.go:54-80 | ends exactly the rows of the user on the target, of the protocol if one is given, leaves every other row as it is, and deletes exactly the ended ones' entries |
| SessionBroker.Broker.Launch | internal/weblaunch/launch.go:151-188 | supersedes, stores, inserts or rolls back; in step afterwards if and only if its id is not that of a session that stays active; a success leaves one open session |
| SessionCreds.WebCredsRoundTrip | internal/weblaunch/launch.go:227-260 | web credentials survive the vault if and only if only the last field may hold a newline |
| SessionCreds.DbCredsRoundTrip | internal/dblaunch/launch.go:227-276 | database credentials survive the vault if and only if only the last field may hold a newline |
| SessionCreds.WebPayload | internal/weblaunch/launch.go:227-231 | the six fields in their order, a newline between neighbours |
| SessionCreds.DbPayload | internal/dblaunch/launch.go:227-232 | the eleven fields in their order, numbers in decimal, a newline between neighbours |
| SessionCreds.SplitJoined | internal/dblaunch/launch.go:227-240 | splitting joined fields gives them back if and only if none but the last holds a newline |

## Left out

- HTTP handlers, listeners, dialing, SSH handshakes, WebSocket and guacd tunnels, recordings: I/O plumbing.
- The FortiGate web proxy, HTML and JavaScript rewriting, cookie handling: heuristics without a crisp specification.
- LDAP, SAML, JWT signing, Argon2, AES-GCM, the SSH CA: library behaviour; the vault stores its plaintext payloads here.
- Database errors and crashes, except a failing session insert and a second vote; deletion of users, requests and votes.
- The CSV form of group ids in the approval matrix: rules hold their ids as lists; IsApproved and TTL expiry: one-branch reads.
- The row LIMIT 1 picks among equally specific ones is the first in table order; SQL NULLs are coalesced as the queries do.
- The text of denial and warning messages, events, Reasons and friendly errors.
- Session-ending commands in the gate: both branches forward the line end, and only the 400 ms timer differs.
- The 800 ms injection debounce is a nondeterministic refusal; the field that counts the masked length is kept but nothing reads it, as in the source.
- Each stretch under the gate's mutex is atomic, and so is each write to the device; skipNextLF belongs to the keystroke side alone.
- The gate's bytes are characters, and command text is ASCII: no Unicode case folding or white space.
- Nil and empty byte slices are not told apart.
- What follows an index out of range in the accounting parser; a body's capacity is taken to be its length.
- GateLines.JudgedOnTypedTextExactly: only without a configured credential; with one, Enter may be swallowed or the keys consumed.
- PasswordMasker.TwoRoundsRemoveExactly: pairs in which a secret has a star at an end are covered one round at a time only.
- VerifyCacheTheorems.BoundedStaleness: tokens are compared by hash, so two tokens that collide share an entry.
- The HTTP status returned beside the claims, and what counts as a transport error: the answer is already one of verified, unreachable, refused.
- End times and reasons of sessions, checkouts, tokens and connection URIs; a nil vault; vault deletes succeed.
- RDP and SSH launches: only their rows share the sessions table, and End deletes an RDP entry that nothing here stores; the proxies' own updates of ended_at are not part of this model.
- SessionCreds.DbCredsRoundTrip: numbers are unbounded, and scanning of text that was not written as a number is simplified.
- Postgres and generic relay framing, vendor reply attributes, CHAP and accounting checks, TOTP, threat rules, reports and plain CRUD: easy members.
