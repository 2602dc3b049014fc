# The login relay, the account store and its backups

A model, in Dafny 4.11, of a single-sign-on server for EverQuest logins. The server relays a
client's login datagrams to the login server and puts the credentials of a shared account in
place of what the user typed; it keeps the accounts, who may use them and under which names;
and it carries its configuration from host to host. `dafny verify dfyconfig.toml` checks
everything.

## What is modelled

**The wire path.** `Crc32`, `BlockCiphers`, `DesWire`, `Soe` and `LoginPackets` are the bytes
of a login: the keyed checksum, CBC over DES, the framing with its trailer, and the rewriting
of credentials inside a datagram. The checksum is the table-driven code against a one-bit
shift register, and `CheckValues` computes two known checksums. The DES rounds and permutations
are parameters of a Feistel network. `LoginPackets.LoginParses` and `ParsesExactly` say, byte by
byte, which datagrams are logins.

**The relay.** `RelayState` is the record under the relay's mutex. `RelayProtocol` takes each
critical section and each socket operation as one step and speaks about every schedule of any
number of uplink handlers and the read loop. `RelaySockets` does the same for opening and
closing the upstream socket. `LoginUplink` is one uplink from payload to datagram; the
settings in force at the strip and at the wrap may differ.

**Presence.** `Presence` is the tracker with lazy expiry, answered from the full history of
touches and clears. `SingleBox` has the heartbeats of all connections, clear and touch apart.

**The store.** `Tables` has one map or set for each table and its unique indexes. `StoreOps`
says what each store method does to the tables, error paths included; `Stores.Store` is the
code, statement by statement, proved to do that. `Access` is who may use an account, and
sharing; `ShareRuns` follows shares over time; `LoginResolution` goes from a typed name to an
account; `DefaultGroup`, `StoreSound`, `StoreTidy` and `StoreRuns` are the locked group and
what every run keeps. `AccessGrants`, `Memberships` and `StoreLaws` say who may use an account,
who is in a group and what each method leaves by the tables alone, with no other function of
the model between. `RoleSync` and `Csv` are the paged role refresh and the list cells.

**Backups.** `BackupWriters` exports and `Backups` imports, row by row. `BackupOps` is import
as a function; `BackupUsers` to `BackupGroups` take its passes one at a time; `BackupMain` has
the theorem; `BackupPasswords`, `BackupRows` and `BackupGrants` speak of any backup, its refused
rows, conflicts and last grants included; `BackupUse` and `BackupAccess` what it means on the same and on a fresh host, and
`BackupCycle` runs export and import on one store.

## How to read the backup theorem

`Restorable` says what an exported store must be like: usernames, group names and Discord ids
nonblank and trimmed, cleaned role lists on users, trimmed nonblank granted roles, group names
distinct ignoring case, known permissions, a default group that is locked if there is one, and
for each restricted account an owner who is not his own recipient. Store methods keep half of
that by themselves; `BackupHosts.SoundIsRestorable` says which half is left to callers.
`Compatible` says what the other host may already hold: the same host qualifies, so does an
empty one, and so does one that holds some of the same accounts. Passwords may be blank or
left out where the host has them already. Rows may come in any order. Neither group
descriptions nor revoked recipients are restricted: where they make a difference, the theorem
says which.

## What the proofs found

- The four-byte trailer is appended for every width other than 0 and 2, but as many bytes are
  stripped as the width says, so only the widths 0, 2 and 4 round-trip (`Soe.StripRestores`).
- A replay can overtake the spliced packet that armed it, so replays are bounded by armings;
  they are bounded by sends exactly while no armed handler is about to send
  (`RelayProtocol.ReplaysWithinSends`).
- A disconnect can finish and leave a relay socket installed behind it, exactly when a relayFor
  is in flight as it takes the old one away (`RelaySockets.LeftBehindExactly`).
- Recipients written by a share that is then refused are never told; notices balance exactly
  without such calls (`ShareRuns.NoticesBalance`, `ShareRuns.LostNotice`).
- A guild member whose role update fails to be written is cleared with the absent users at the
  end of a complete refresh (`RoleSync.SyncMemberRoles`).
- An export does not bring its own store back when a restricted account has a direct user grant
  or a revoked recipient, or a group's description is not trimmed
  (`BackupUse.SameHostIdentity`).
- On a fresh host a disabled restricted account is enabled again, and an account with a revoked
  recipient loses the recipients after him and its roles (`BackupAccess.FreshHostExactly`).

## Model

| member | source | states |
|---|---|---|
| `Text.TrimMeans` | internal/store/store.go:134-152 | trimming takes the space at both ends, all of it and nothing else |
| `Text.FoldMeans` | internal/store/store.go:355-371 | ignoring case means letter by letter |
| `Crc32.CrcTable` | internal/eqlogin/crc.go:41-55 | each table entry is its index fed through the shift register for eight bits |
| `Crc32.SOECRC32` | internal/eqlogin/crc.go:6-16 | the table-driven loop computes, for every data and key, the bit-at-a-time reflected CRC-32 of section 8 of RFC 1952 over the little-endian key and then the data |
| `Crc32.TableRound` | internal/eqlogin/crc.go:11-14 | one table lookup and shift is eight rounds of the one-bit register |
| `Crc32.BurstDetected` | internal/eqlogin/crc.go:6-16 | two inputs of equal length that differ only inside four consecutive bytes never share a checksum |
| `Crc32.KeyAndChecksum` | internal/eqlogin/crc.go:6-16 | for fixed data every checksum is reached under exactly one key, which is computed |
| `CheckValues.ChecksumOfDigits` | internal/eqlogin/login_packet_test.go:9-18 | the checksum of 123456789 is 22896B0A under key 0 and AAD05244 under key 12345678: the polynomial, the bit order and the place of the key are these and no others |
| `BlockCiphers.DesInvertible` | internal/crypto/deswire.go:25-48 | the DES network undoes itself under any round functions and matching outer permutations |
| `DesWire.ZeroPad` | internal/crypto/deswire.go:50-58 | zeros up to the next multiple of eight, none when already there |
| `DesWire.EncryptDES` | internal/crypto/deswire.go:25-34 | the buffer loop computes CBC over the padded text with a zero IV |
| `DesWire.DecryptDES` | internal/crypto/deswire.go:37-48 | CBC decryption, refused for empty or ragged input |
| `DesWire.PackCredentials` | internal/crypto/deswire.go:17-22 | encrypts user, zero byte, password, zero byte |
| `DesWire.CbcRoundTrip` | internal/crypto/deswire.go:25-48 | CBC decryption undoes CBC encryption from any IV |
| `DesWire.DecryptEncrypt` | internal/crypto/deswire.go:25-58 | decrypting an encryption gives the text and its zero padding; only the empty text does not come back |
| `DesWire.CbcBlocks` | internal/crypto/deswire.go:25-34 | each ciphertext block is the encryption of its plaintext block mixed with the ciphertext block before it, and the first one with the IV |
| `Soe.AppendCRC` | internal/eqlogin/crc.go:18-32 | appends nothing, two or four checksum bytes, high byte first, by width |
| `Soe.RestoreCRC` | internal/eqlogin/login_packet.go:120-125 | the trailer goes on only where the width is not zero and the opcode uses one |
| `Soe.StripRestores` | internal/eqlogin/login_packet.go:112-125 | stripping undoes restoring, for two bytes or more, exactly for widths 0, 2 and 4 or where no trailer is used |
| `Soe.ShortBodyNotStripped` | internal/eqlogin/login_packet.go:112-125 | the two-byte bound is needed: under some key a one-byte body is not stripped again |
| `Soe.StrippedIs` | internal/eqlogin/login_packet.go:112-118 | stripping takes the width's number of bytes off the end, whatever they are, unless there are too few or the datagram starts 0, 1 or 0, 2 |
| `Soe.TrailerIsChecksum` | internal/eqlogin/crc.go:18-32 | the trailer read back, high byte first, is the checksum for width 4 and its low half for width 2 |
| `Soe.SessionResponseIs` | internal/eqlogin/soe.go:43-58 | the session responses are the datagrams of 17 bytes or more that start 0, 2; the key is bytes 6 to 9, high byte first, and the width is byte 10 |
| `Soe.PacketOpcode` | internal/eqlogin/soe.go:94-100 | an application packet carries the opcode in its bytes 4 and 5, low byte first |
| `Soe.PlainReplies` | internal/eqlogin/soe.go:67-92 | which datagrams that nest nothing are failure and success replies, byte by byte, both ways |
| `Soe.CombinedReplies` | internal/eqlogin/soe.go:67-116 | a Combined datagram is a reply exactly when a subpacket, at any depth, carries the opcode of one, or by the text of the whole |
| `Soe.WalkAppOpcodes` | internal/eqlogin/soe.go:94-116 | the cursor loop with nested recursion terminates on every datagram and reports exactly whether a carried opcode satisfies the test |
| `Soe.WalkOfFrames` | internal/eqlogin/soe.go:94-116 | the walk of a Combined datagram visits its subpackets' opcodes in order at every depth, and nothing after a bad length |
| `Soe.LooksLikeLoginFailure` | internal/eqlogin/soe.go:67-81 | disconnects, text rejections and chat messages, with the text match as a parameter |
| `Soe.LooksLikeLoginSuccess` | internal/eqlogin/soe.go:85-92 | fragments and server list responses |
| `LoginPackets.SpliceEncryptedCredentials` | internal/eqlogin/login_packet.go:88-100 | the appended and patched buffer, or an error when the subpacket outgrows its length byte |
| `LoginPackets.RewriteCredentials` | internal/eqlogin/login_packet.go:103-109 | packs, encrypts and splices |
| `LoginPackets.LoginParses` | internal/eqlogin/login_packet.go:29-61 | every login datagram, given byte by byte with any acknowledgement, sequence, base message and tail, that carries the ciphertext of a name and a password without zero bytes parses to exactly these |
| `LoginPackets.ParsesExactly` | internal/eqlogin/login_packet.go:29-61 | what parses has those fixed bytes, a right length byte and whole cipher blocks, and everything that has them parses |
| `LoginPackets.PackThenDecrypt` | internal/eqlogin/login_packet.go:63-85 | packed credentials decrypt to themselves exactly when neither has a zero byte, empty ones included |
| `LoginPackets.RewriteFits` | internal/eqlogin/login_packet.go:88-109 | a rewrite succeeds exactly when user and password and two terminators fit in 232 bytes |
| `LoginPackets.RewriteFrame` | internal/eqlogin/login_packet.go:88-100 | everything outside the length byte and the ciphertext is as before |
| `LoginPackets.RewriteParses` | internal/eqlogin/login_packet.go:29-109 | a rewritten packet is a login packet of the same layout, decrypting to its ciphertext's credentials |
| `LoginPackets.RewriteThenParse` | internal/eqlogin/login_packet.go:29-109 | the new credentials come back exactly when they have no zero byte |
| `LoginPackets.RewriteTwice` | internal/eqlogin/login_packet.go:88-109 | a second rewrite makes the first irrelevant |
| `LoginPackets.RewriteKeepsOpcodes` | internal/eqlogin/login_packet.go:88-100 | the walk visits the same application opcodes before and after a rewrite |
| `RelayState.UdpRelay.SetTypedFallback` | internal/sso/hub_relay.go:162-170 | arms a nonempty packet |
| `RelayState.UdpRelay.TakeTypedRetry` | internal/sso/hub_relay.go:172-185 | hands out the armed packet once |
| `RelayState.UdpRelay.ClearTypedFallback` | internal/sso/hub_relay.go:187-195 | disarms |
| `RelayState.UdpRelay.NoteDownlink` | internal/sso/hub_relay.go:150-160 | session responses set the CRC settings, success replies disarm |
| `RelayState.UdpRelay.HandleDownlink` | internal/sso/hub_relay.go:126-146 | one round of the read loop: a failure reply that is no success reply is answered by the armed packet, all else is forwarded |
| `RelayState.RetryOnce` | internal/sso/hub_relay.go:162-195 | an armed packet is handed out once, and not after a clear; the CRC settings stay |
| `RelayState.SessionSettles` | internal/sso/hub_relay.go:150-160 | a session response, byte by byte, settles key and width and nothing else; any other datagram settles nothing |
| `RelayProtocol.RetryIsLastArmed` | internal/sso/hub_relay.go:150-195 | over every interleaving, a retry taken is the packet last armed, which no other taking or success reply has spent since |
| `RelayProtocol.ReplayIsLastArmed` | internal/sso/hub_relay.go:126-146 | over every interleaving, each replay is byte for byte the packet last armed when it was taken, and no downlink comes between taking and sending |
| `RelayProtocol.Conservation` | internal/sso/hub_relay.go:126-146 | over every interleaving, replays never exceed armings, armings are armed sends and handlers about to send, so replays exceed armed sends by such handlers at most; downlinks received are those forwarded, replayed or in hand |
| `RelayProtocol.ReplayBeforeSend` | internal/sso/hub_relay.go:272-283 | that bound is reached for every n: a run with n handlers about to send, n replays and no armed send |
| `RelayProtocol.ReplaysWithinSends` | internal/sso/hub_relay.go:243-285 | replays stay within armed sends, in all runs that end with n armed handlers about to send, exactly when n is zero |
| `RelaySockets.SocketsAreOwned` | internal/sso/hub_relay.go:32-108 | over every interleaving each socket is installed, held by exactly one call, or closed, and only one of these |
| `RelaySockets.QuietMeansAtMostOne` | internal/sso/hub_relay.go:48-108 | with no call in flight at most the installed socket is open |
| `RelaySockets.StepsAreClean` | internal/sso/hub_relay.go:32-108 | in every run no step closes a closed socket, and an installed relay gives way to a disconnect only |
| `RelaySockets.LeftBehindExactly` | internal/sso/hub_relay.go:48-108 | in every run, a disconnect can be followed by a live relay, with no relayFor starting after it, exactly when some relayFor is in flight at the detach |
| `RelaySockets.DisconnectRace` | internal/sso/hub.go:1079-1097 | such a run, at whose end nothing is in flight and the relay is still installed and open |
| `Presence.Tracker.Touch` | internal/presence/presence.go:28-37 | adds a touch to the history the tracker answers from |
| `Presence.Tracker.Clear` | internal/presence/presence.go:39-43 | adds a clear to the history |
| `Presence.Tracker.ClearUserExcept` | internal/presence/presence.go:47-59 | adds the user's clear to the history and counts the live entries it removes |
| `Presence.Tracker.IsBusy` | internal/presence/presence.go:61-67 | answers from the full history filtered by age, whatever was deleted on the way |
| `Presence.Tracker.Online` | internal/presence/presence.go:69-78 | lists each live entry of the history once |
| `Presence.Tracker.Snapshot` | internal/presence/presence.go:89-104 | the same entries in account order |
| `Presence.Tracker.Count` | internal/presence/presence.go:106-111 | the number of live entries of the history |
| `Presence.Tracker.ExpireLocked` | internal/presence/presence.go:113-120 | deletes exactly the expired entries and changes no later answer |
| `Presence.ExpiryInvisible` | internal/presence/presence.go:113-120 | deleting what has expired changes nothing that can be seen later |
| `Presence.ApplyAgrees` | internal/presence/presence.go:28-59 | a touch or clear acts the same on the pruned map and on the full history |
| `Presence.RecordedMeans` | internal/presence/presence.go:28-59 | the history holds an account by its last touch, exactly when no later clear of it, nor of its user sparing another account, came |
| `Presence.LiveMeans` | internal/presence/presence.go:61-67 | an account is live exactly while such a touch is younger than the limit |
| `SingleBox.OnlineBounded` | internal/sso/hub.go:252-303 | with the heartbeat's clear and touch as separate steps, a user with at most n connections never has more than n accounts online |
| `SingleBox.SingleConnectionSingleBox` | internal/sso/hub.go:283-293 | with one connection a finished heartbeat leaves exactly its own account |
| `SingleBox.BoundIsReached` | internal/sso/hub.go:283-293 | for every n a run with n accounts online |
| `Roles.Cleaned` | internal/store/store.go:134-152 | the loop that stores a role list trims it and drops blanks and repeats |
| `Roles.CleanRolesIsClean` | internal/store/store.go:134-152 | what is stored has the trimmed nonblank roles of the input, each once |
| `Roles.CleanRolesFixed` | internal/store/store.go:134-152 | clean lists are stored as they are |
| `RoleSync.ApplyPage` | internal/discord/bot.go:164-223 | one page settles the users found in it and no others |
| `RoleSync.FetchAll` | internal/discord/bot.go:164-223 | the paging loop terminates and sees a prefix of the roster, all of it when every page arrives |
| `RoleSync.ClearWaiting` | internal/discord/bot.go:164-223 | the last pass clears exactly the users not settled whose write succeeds |
| `RoleSync.SyncMemberRoles` | internal/discord/bot.go:164-223 | a complete refresh leaves each settled user the cleaned guild roles and the others none; a failed page clears nobody; both counts are exact |
| `RoleSync.CompleteRefresh` | internal/discord/bot.go:164-223 | if every write succeeds, updated and cleared add up to the known users, and each holds the cleaned guild roles or none |
| `RoleSync.RefreshLeaves` | internal/discord/bot.go:164-223 | told by the guild's members: a member whose update succeeds holds his guild roles, cleaned; everybody else holds none where the clear succeeds, and otherwise what he held |
| `RoleSync.RefreshIdempotent` | internal/discord/bot.go:164-223 | a second complete refresh changes nothing |
| `Csv.SplitMulti` | internal/web/csv.go:31-58 | trimmed fields at the chosen separator, without blanks and repeats |
| `Csv.SplitIsClean` | internal/web/csv.go:31-58 | what a cell splits into is trimmed, nonempty, free of the separators and distinct ignoring case |
| `Csv.SplitIsComplete` | internal/web/csv.go:31-58 | every piece between separators that is not blank is in the list, ignoring case, and nothing else is |
| `Csv.SplitJoin` | internal/web/csv.go:31-58 | a list comes back from its joined cell exactly when its names are clean, distinct ignoring case, and a list of one has no bar |
| `Csv.LabelResolves` | internal/web/csv.go:105-230 | a role's label resolves to its id exactly when no role id equals the label and no earlier role has that name |
| `Csv.RoleResolves` | internal/web/csv.go:105-137 | a role cell means the id it spells, else the first role of that name, else itself if it has 17 to 20 digits, and is refused otherwise |
| `Csv.LabelMeans` | internal/web/csv.go:216-233 | a label is the trimmed name of the first role with the id, or the id where there is none or it is blank |
| `Access.AllowedFrame` | internal/store/store.go:1440-1538 | who may use an account depends on the users, the groups and the account's own rows only |
| `AccessGrants.InGroupMeans` | internal/store/store.go:1465-1480 | a user is in a group as a direct member, or by holding a member role that is not blank |
| `AccessGrants.MayUse` | internal/store/store.go:1440-1538 | who may use an account, in every state, told by the link tables: never a disabled one; a restricted one by ownership, share, role or group; an open one by any grant, or everyone where there is none |
| `AccessGrants.AcceptedPrefix` | internal/store/store.go:935-987 | inserting one by one stops at the first unknown id, and not before |
| `AccessGrants.AccessStep` | internal/store/store.go:992-1000 | setting grants succeeds exactly when all users and groups named exist, and then the account's row has just these |
| `AccessGrants.AccessExactness` | internal/store/store.go:992-1000 | after it an enabled open account may be used by everyone when nothing is listed, and otherwise exactly by listed users, holders of a listed role and members of a listed group; a disabled one by nobody; access to other accounts is unchanged |
| `Access.SharesStep` | internal/store/store.go:2111-2139 | replacing shares succeeds exactly when all recipients exist and are not revoked, and otherwise leaves those before the first bad one |
| `Access.RolesStep` | internal/store/store.go:906-932 | replacing role grants changes one account's role grants to the cleaned list |
| `Access.UsersStep` | internal/store/store.go:935-966 | replacing user grants succeeds exactly when all users exist; otherwise the ones before the first unknown stay |
| `Access.GroupsStep` | internal/store/store.go:969-987 | the same for an account's groups |
| `Access.ShareStep` | internal/store/store.go:2190-2286 | a successful share leaves one restricted account of the owner with exactly the given grants, and no other account changes |
| `Access.ShareExactness` | internal/store/store.go:1440-1538 | after a successful share of an enabled account its users are exactly owner, recipients, holders of a listed role and members of a listed group; access to other accounts is unchanged |
| `AccessGrants.RecipientsMean` | internal/store/store.go:2195-2203 | the recipients of a share are the listed users, the owner aside, each once |
| `StoreLaws.ShareAddsAliases` | internal/store/store.go:2269-2275 | a share adds every listed alias that is free and not the username, and moves none from another account |
| `StoreLaws.ShareSpaceIgnored` | internal/store/store.go:2190-2194 | space around the username of a share makes no difference |
| `Access.NotifiedAreNew` | internal/store/store.go:2173-2286 | a successful share notifies exactly the recipients who were not there before |
| `ShareRuns.ArrivalsBalance` | internal/store/store.go:2172-2286 | over every run of shares, refused ones included, presence at the start, notices and unannounced arrivals add up to departures and presence at the end |
| `ShareRuns.NoticesBalance` | internal/store/store.go:2172-2286 | the notices alone balance exactly when no refused call of the run added the recipient |
| `ShareRuns.RefusedShareLosesNotices` | internal/store/store.go:2190-2286 | a recipient added by a share that is then refused, for a bad recipient or a bad group, is told neither by it nor by the repaired call |
| `ShareRuns.LostNotice` | internal/store/store.go:2278-2285 | it happens: a share naming an unknown group adds its recipient, and the same share without the group does not tell him |
| `Access.ShareSucceeds` | internal/store/store.go:2190-2286 | a share succeeds exactly when the name is given, the target is free or the owner's, recipients are known and not revoked, and groups exist |
| `Access.RefusedShareStep` | internal/store/store.go:2190-2286 | what every refused share leaves behind: nothing without a target, else one row with the recipients before the first bad one, and after a bad group all of them and the roles |
| `LoginResolution.PickLoginCandidate` | internal/sso/hub.go:1155-1179 | the two filters and the scan for a free account on the live tracker, each candidate at its own reading of a non-decreasing clock |
| `LoginResolution.CandidatesAre` | internal/store/store.go:1540-1596 | the candidates are exactly the allowed, enabled accounts of that username, tag, alias or character, once each, lowest id first |
| `LoginResolution.MatchMeans` | internal/store/store.go:1540-1596 | an account matches by its username, an alias, a character or a tag as written, ignoring case, and space around the typed name |
| `LoginResolution.AtMostThreeDirect` | internal/store/store.go:1540-1610 | at most three candidates are direct |
| `LoginResolution.LoginResolves` | internal/sso/hub.go:1155-1179 | the chosen account is allowed, enabled and matches; the lowest direct match wins whatever the tracker says; otherwise the lowest free account of the tag, or its only one |
| `LoginResolution.NoneChosen` | internal/sso/hub.go:1155-1179 | none is chosen exactly when there is no candidate, or at least two, all by tag and all busy |
| `LoginUplink.SpliceLoginPacket` | internal/sso/hub_relay.go:353-406 | the decisions of a splice in order, and that only a sent login touches the presence history |
| `LoginUplink.HandleLoginRelayUp` | internal/sso/hub_relay.go:212-285 | payload checks, strip, splice, wrap, when the typed packet is kept, and that only a spliced login touches the presence history, in one piece |
| `LoginUplink.SpliceOutcome` | internal/sso/hub_relay.go:353-406 | a parsed login that is let through and finds an account is sent exactly when that account's credentials fit |
| `LoginUplink.UplinkDecides` | internal/sso/hub_relay.go:212-285 | what becomes of every payload, by its bytes, the limiter and the candidates alone: bad ones and credentials over 232 bytes are reported and arm nothing; logins not let through, or with two or more candidates all by tag and busy, are dropped; in all other cases, and only then, a datagram goes up |
| `LoginUplink.SplicedLogin` | internal/sso/hub_relay.go:197-285 | end to end, for widths 0, 2 and 4: the datagram is a body and its right checksum, and the body parses to the vault credentials of an eligible account exactly when they have no zero byte; the typed packet is armed exactly when the passwords differ |
| `LoginUplink.UnsplicedIsUnchanged` | internal/sso/hub_relay.go:243-285 | a datagram that is no login, or whose name finds no account or cannot be looked up, leaves as it came and arms nothing |
| `DefaultGroup.FindDefault` | internal/store/store.go:355-371 | looking up the default name answers whether there is a default group, ignoring case |
| `DefaultGroup.CreateKeeps` | internal/store/store.go:326-352 | creating a group never makes a second default nor unlocks the first |
| `DefaultGroup.UpdateKeeps` | internal/store/store.go:700-737 | updating a group never does either |
| `DefaultGroup.DeleteKeeps` | internal/store/store.go:811-828 | nor does deleting one |
| `DefaultGroup.EnsureLocks` | internal/store/store.go:597-638 | ensuring always succeeds, locks the group it returns, and changes no other |
| `DefaultGroup.CommandAccessIsMembership` | internal/store/discord_commands.go:69-125 | with a locked default group a known command is open exactly to members of a granting group |
| `DefaultGroup.UngrantedCommandIsOpen` | internal/store/discord_commands.go:89-125 | without one, a command that no group grants is open to everyone |
| `Memberships.CommandAccess` | internal/store/discord_commands.go:69-125 | in every state, who may run a command: by direct membership in a granting group or a member role the user holds, or everyone where no group grants it |
| `Memberships.MembershipsAgree` | internal/store/discord_commands.go:108-117 | the membership of command checks is that of account access where no member role is blank |
| `Memberships.MembershipExactness` | internal/store/store.go:740-781 | after replacing a group's members these are exactly the listed users and the holders of a listed role, and no other group's change; it succeeds exactly when nothing is listed, or the group and all users exist |
| `Memberships.AddedUser` | internal/store/store.go:660-663 | adding a user adds that user, to that group |
| `Memberships.AddedRole` | internal/store/store.go:670-677 | adding a role adds its holders, to that group |
| `Memberships.RemovedMembers` | internal/store/store.go:660-698 | removing a user, a role or a link just added gives the tables back |
| `DefaultGroup.AutoAssigned` | internal/store/store.go:642-658 | a user in no group is put into the locked Default and can run every known command; others are left alone |
| `Memberships.AutoAssignedExactly` | internal/store/store.go:642-658 | put into Default are exactly the users with no group of their own and no role that is a member of one; for others nothing changes |
| `StoreRuns.RunKeeps` | internal/store/store.go:83-1117 | every run of store operations keeps the indexes, the references, the lock of the default group, tidy grants, normal group permissions, and owners apart from their recipients |
| `StoreTidy.ShareTidy` | internal/store/store.go:2190-2286 | a share, refused or not, leaves an owner who is no recipient of his own account |
| `StoreRuns.EnsuredForGood` | internal/store/store.go:595-828 | in every run from an empty store that ensures the default group, from then on exactly one group is named Default in any case, locked |
| `StoreSound.DeleteAccountValid` | internal/store/store.go:1939-1949 | deleting an account leaves no row that refers to it |
| `StoreLaws.UpsertKeeps` | internal/store/store.go:83-106 | a login stores the name and the roles it brings, except that an empty list keeps the stored ones; id, revocation and all other users stay |
| `StoreLaws.RolesSet` | internal/store/store.go:134-152 | after setting a user's roles he holds exactly those, trimmed, and everybody else what they held |
| `StoreLaws.WebRoles` | internal/store/store.go:379-390 | which words name each web role, as an if and only if; no others do |
| `StoreLaws.CommandsAre` | internal/store/discord_commands.go:21-43 | a list is accepted exactly when each command is blank or known, and means those not blank |
| `StoreLaws.FoundGroup` | internal/store/store.go:355-371 | the group found under a name is the first of that name, ignoring case |
| `StoreLaws.GroupCreated` | internal/store/store.go:326-352 | a group is created exactly when it has a name, makes no second Default, has good permissions and no group has that very name; nothing else changes |
| `StoreLaws.GroupUpdated` | internal/store/store.go:700-737 | an update writes just that row, of the default group the description only, and is refused exactly for a blank, reserved or taken name or bad permissions |
| `StoreLaws.SyncedDescription` | internal/store/store.go:623-638 | repairing the default group keeps a description that is not all spaces and replaces any other |
| `StoreLaws.GroupDeleted` | internal/store/store.go:811-828 | deleting takes the group, its members and its links, exactly when it is there and not the default; all else stays |
| `StoreLaws.LinksExactness` | internal/store/store.go:784-809 | after replacing a group's accounts these are exactly the listed ones, and no other group's change |
| `StoreLaws.FoundAccount` | internal/store/store.go:857-871 | an account is found under a name exactly when that is its username, ignoring case and space around it |
| `StoreLaws.AccountDeleted` | internal/store/store.go:1939-1949 | deleting an account takes all of its row and nothing else |
| `StoreLaws.NameAdded` | internal/store/store.go:1002-1022 | an alias or character is added exactly when it is not blank, no other account has it in any case, and the account exists or has it already |
| `StoreLaws.NameRemoved` | internal/store/store.go:1024-1040 | removing it, in any case, takes back just that, and only from its own account |
| `StoreLaws.TagAdded` | internal/store/store.go:1042-1059 | a tag is added to each account once in any case |
| `StoreLaws.TagRemoved` | internal/store/store.go:1061-1077 | and removed again in any case |
| `Stores.Store.UpsertUser` | internal/store/store.go:83-106 | inserts, or updates name and nonempty roles |
| `Stores.Store.SetUserRoles` | internal/store/store.go:134-152 | stores the cleaned roles of a known user |
| `Stores.Store.SetUserAccessRevoked` | internal/store/store.go:182-198 | sets the flag, or reports an unknown user |
| `Stores.Store.AddEQAccount` | internal/store/store.go:830-854 | a new account under a free blind index |
| `Stores.Store.ReplaceAccountRoles` | internal/store/store.go:906-932 | delete and insert one by one |
| `Stores.Store.ReplaceAccountUsers` | internal/store/store.go:935-966 | delete and insert one by one, stopping at the first refusal |
| `Stores.Store.ReplaceAccountGroups` | internal/store/store.go:969-987 | the same for groups |
| `Stores.Store.SetAccountAccess` | internal/store/store.go:992-1000 | the three in order, stopping at the first error |
| `Stores.Store.ReplaceAccountShares` | internal/store/store.go:2111-2139 | delete and insert one by one, stopping at an unknown or revoked user |
| `Stores.Store.AddAlias` | internal/store/store.go:1002-1022 | a free alias is added, the account's own is left, another's is refused |
| `Stores.Store.RemoveAlias` | internal/store/store.go:1024-1040 | removes the account's alias in any case |
| `Stores.Store.AddTag` | internal/store/store.go:1042-1059 | a tag once per account in any case |
| `Stores.Store.RemoveTag` | internal/store/store.go:1061-1077 | removes it |
| `Stores.Store.AddCharacter` | internal/store/store.go:1079-1099 | as for aliases |
| `Stores.Store.RemoveCharacter` | internal/store/store.go:1101-1117 | as for aliases |
| `Stores.Store.ShareTarget` | internal/store/store.go:2224-2267 | the owner's own restricted account or a new one |
| `Stores.Store.ShareLocalAccount` | internal/store/store.go:2190-2286 | the whole share, with what each error leaves behind |
| `Stores.DiffNewShareRecipients` | internal/store/store.go:2173-2185 | the recipients that were not there before, in order |
| `Stores.Store.FindGroupIDByName` | internal/store/store.go:355-371 | the group of that name ignoring case, the lowest id where there are several |
| `Stores.Store.CreateGroup` | internal/store/store.go:326-352 | refuses blank, reserved and taken names and bad permissions |
| `Stores.Store.UpdateGroupMeta` | internal/store/store.go:700-737 | keeps the default group's name and permissions, refuses the reserved name elsewhere |
| `Stores.Store.DeleteGroup` | internal/store/store.go:811-828 | never the default; members and links go too |
| `Stores.Store.ReplaceGroupMembership` | internal/store/store.go:740-781 | all or nothing |
| `Stores.Store.ReplaceGroupAccountLinks` | internal/store/store.go:784-809 | all or nothing |
| `Stores.Store.EnsureDefaultGroup` | internal/store/store.go:597-638 | finds and repairs, or creates |
| `Stores.Store.EnsureUserInDefaultGroupIfNone` | internal/store/store.go:642-658 | adds the user to it when in no group |
| `Stores.NormalizeDiscordCommands` | internal/store/discord_commands.go:21-43 | the known commands of a list, as a set, or an error |
| `BackupWriters.ExportConfigBackup` | internal/web/backup.go:69-216 | one row for every user with a Discord id, every account and every group, with ids replaced by natural keys |
| `BackupWriters.FillGroupNames` | internal/web/backup.go:169-187 | the group names found by matching usernames are the row's own account's |
| `Backups.ReplaceAccountAliases` | internal/web/backup.go:455-475 | all aliases but the username go, then the listed ones are added up to the first conflict |
| `Backups.ReplaceAccountTags` | internal/web/backup.go:477-490 | all tags go, then the listed ones are added |
| `Backups.ReplaceAccountCharacters` | internal/web/backup.go:492-505 | all characters go, then the listed ones are added up to the first conflict |
| `Backups.ImportUserRows` | internal/web/backup.go:244-283 | the users pass, and that its directory ends as all users with a Discord id |
| `Backups.ImportAccountRow` | internal/web/backup.go:285-374 | one account row, with every early exit |
| `Backups.ImportGroupRow` | internal/web/backup.go:376-426 | one group row, with every early exit |
| `Backups.ImportGrantRow` | internal/web/backup.go:428-450 | the last pass for one row |
| `Backups.ImportConfigBackup` | internal/web/backup.go:233-453 | the passes in order compute the import, and any backup whatever leaves a sound store sound |
| `BackupCycle.ExportThenImport` | internal/web/backup.go:69-453 | export and import on one store return every table exactly when no restricted account has a direct user grant or a revoked recipient and all group descriptions are trimmed |
| `BackupSound.ImportSound` | internal/web/backup.go:233-453 | any backup at all keeps the indexes, the references and the default group's lock |
| `BackupPasswords.ImportedPasswords` | internal/web/backup.go:285-374 | any backup at all, imported into any store, makes no account with a blank password and blanks none |
| `BackupPasswords.ExportedPasswords` | internal/web/backup.go:69-160 | an export without passwords holds none, and one with passwords holds each account's own |
| `BackupRows.BlankPasswordSkipped` | internal/web/backup.go:311-334 | an account row, open or restricted, for a username no account has and with a blank password changes nothing |
| `BackupRows.UnusableSkipped` | internal/web/backup.go:285-325 | nor does a row without a username, or a restricted one with an unknown owner or for an account that is not his restricted one |
| `BackupRows.OthersSkipped` | internal/web/backup.go:244-395 | nor a user row without an id, or a group row without a name or with bad permissions |
| `BackupRows.UserSpaceIgnored` | internal/web/backup.go:244-258 | space around a Discord id makes no difference to a user row |
| `BackupRows.AccountSpaceIgnored` | internal/web/backup.go:285-304 | nor around the username and the owner's id to an account row |
| `BackupRows.GroupSpaceIgnored` | internal/web/backup.go:378-382 | nor around the name to a group row |
| `BackupRows.DirectoryMeans` | internal/web/backup.go:244-283 | rows name users by their Discord ids; a user without one cannot be named |
| `BackupRows.LookupMeans` | internal/web/backup.go:351-357 | the users a row names are those of its listed ids, trimmed, without the unknown ones |
| `BackupRows.LookupGroupsMeans` | internal/web/backup.go:428-450 | the groups it names are those its pass placed under the listed names, ignoring case and space around |
| `BackupRows.LookupAccountsMeans` | internal/web/backup.go:414-422 | the accounts a group row names are those found under its usernames |
| `BackupRows.AddNamesAre` | internal/web/backup.go:455-505 | adding a list of aliases or characters adds all before the first that is taken by another account, or blank where blanks count, keeps what was there, and is complete exactly without such a conflict |
| `BackupRows.AddTagsAre` | internal/web/backup.go:477-490 | adding a list of tags adds all before the first blank one |
| `BackupUsers.ImportUsersAre` | internal/web/backup.go:244-275 | after the users pass each row's user is exactly as the row says, under its old id if it had one |
| `BackupNames.ReplaceAliasesStep` | internal/web/backup.go:455-475 | with free names the account has exactly the listed aliases and the one that is its username |
| `BackupNames.ReplaceCharactersStep` | internal/web/backup.go:492-505 | with free names the account has exactly the listed characters |
| `BackupNames.ReplaceTagsStep` | internal/web/backup.go:477-490 | the account has exactly the listed tags |
| `BackupAccounts.ImportAccountStep` | internal/web/backup.go:285-374 | a row leaves exactly the account it describes, or the halted one, whatever was there, and changes no other account |
| `BackupAccounts.HaltedStep` | internal/web/backup.go:298-325 | with a revoked recipient a restricted row leaves the recipients before him and the added aliases, and the old roles, links, tags and characters |
| `BackupAccounts.RevokedRecipientStopsRow` | internal/web/backup.go:298-325 | a revoked recipient makes a restricted row stop halfway, before its tags and characters |
| `BackupRestored.HaltedShares` | internal/store/store.go:2111-2139 | the recipients such a row leaves are those listed before the first revoked one |
| `BackupStage.ImportAccountsAre` | internal/web/backup.go:285-374 | rows for different accounts do not disturb each other, in any order |
| `BackupGroups.ImportGroupsAre` | internal/web/backup.go:376-426 | after the groups pass each row's group, members and links are as the row says, the description trimmed where the group was there before; other groups are as before |
| `BackupGroups.GrantsSame` | internal/web/backup.go:428-450 | where grants are in place the last pass changes nothing |
| `BackupGrants.GrantsAre` | internal/web/backup.go:428-450 | the last row that grants to an account decides its roles, users and groups, and an account no row grants to stays as it is |
| `BackupGrants.ImportedGrants` | internal/web/backup.go:233-453 | whatever the backup says, an account ends with exactly the grants of the last open row for it that names groups |
| `BackupHosts.SoundIsRestorable` | internal/web/backup.go:69-216 | a store that a run of its methods reaches, with trimmed names and ids and a default group ensured, can be exported whole |
| `BackupMain.ImportRestores` | internal/web/backup.go:69-453 | importing an export on any host it fits restores every user, account and group up to ids, and leaves nothing that neither host had; what revoked recipients and untrimmed descriptions change is stated exactly |
| `BackupUse.SameHostIdentity` | internal/web/backup.go:69-453 | on its own host, with passwords or without, every table is what it was exactly when no restricted account has a direct user grant or a revoked recipient and every group description is trimmed |
| `BackupAccess.AccessCarries` | internal/store/store.go:1440-1538 | access to an account without revoked recipients is on the new host what it was on the old, decided with the new host's disabled flag |
| `BackupAccess.HaltedAccess` | internal/store/store.go:1440-1538 | of an account with a revoked recipient the owner, those listed before him and the linked groups keep access on a host that had nothing of it |
| `BackupAccess.FreshHostAccess` | internal/web/backup.go:285-450 | on a fresh host, by Discord id and username, who may use which account: the same people, restricted accounts being enabled again, but for those a revoked recipient costs access |
| `BackupAccess.FreshHostExactly` | internal/web/backup.go:298-331 | the access relation is the same exactly when no restricted account was disabled and nobody loses one that has a revoked recipient |

## Left out

- HTTP, WebSockets, UDP, Discord, OAuth and Postgres: each is replaced by inputs, outputs and tables; database failures other than refused rows do not happen.
- JSON, base64, CSV quoting, sealing of secrets and the blind index's hash: sealing is the identity and the index is the folded, trimmed name.
- The rate limiter, the lookup failure of a login, and which pages and role writes fail: inputs, with any answer.
- The text match for an invalid username or password: an arbitrary predicate on the datagram.
- The DES round function and permutations: parameters; everything holds for any of them.
- Unicode: folding and trimming are ASCII, and in `LoginUplink` a character stands for one byte.
- API tokens, audit rows, the cache of Discord roles and the old single-role and single-user columns: nothing here reads them.
- Order of listings and of exported rows, the counters and messages an import returns, and serial numbers skipped by failed inserts.
- Presence broadcasts and the other branches of the hub's message loop.
- Stores.Store.FindGroupIDByName: returns the lowest id where group names differ only in case; the query leaves that choice open.
- LoginUplink.HandleLoginRelayUp: takes strip and wrap in one piece; that the settings may change between is in `LoginUplink.SplicedLogin`.
- Stores.Store.ReplaceGroupMembership: the transaction is a local copy written back at the end; isolation from other transactions is not modelled.
- Stores.NormalizeDiscordCommands: returns a set; that the stored list is sorted is left out, since every reader takes it as a set.
- BackupMain.ImportRestores: assumes a store that is `Restorable`; of stores outside it only `BackupSound.ImportSound` speaks.
