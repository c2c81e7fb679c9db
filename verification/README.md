# Verified model of the SSH bastion

This project models the parts of sshportal that hold state, run concurrently or encode data, and proves what they
guarantee. `dafny verify dfyconfig.toml` checks all of it.

| files | what is modelled |
|---|---|
| `Pipe`, `PipeSafety`, `PipeTheorems`, `PipeDelivery`, `PipeRuns`, `PipeEventLoop`, `PipeLiveness` | the channel proxy `pipe`: four goroutines, two channels of capacity one and an event loop, as a labelled transition system over all interleavings |
| `Base64Url`, `Cfb`, `SecretCodec` | how passwords and private keys are encrypted at rest; AES is any function from a key to a block function |
| `BackupSecrets`, `BackupRestore`, `RestoreProofs` | `config backup` and `config restore` over all tables and join tables |
| `AccessControl` | the access decision, with map iteration and the unstable sort left open |
| `HopRoute` | the walk along the hops of a host, the dials along the route, and the commands that change the hops |
| `SessionLifecycle` | session rows over every run of a server with restarts |
| `LogTunnel`, `TelnetLines` | the framing of the log of forwarded connections, and the line converter of telnet sessions |
| `SessionListing` | the paged `session ls` |
| `KeyBinding` (with `HostKeys`) | which user a public key stands for, invites, and learning host keys |
| `Common` | shared types and small facts |

Where the source works in steps on variables, arrays, maps or rows, the model is a method or a class whose methods are
proved against functions; the theorems are about those functions, over all inputs and all runs.

How the functions of the model that carry no contract relate to the source:

- `Pipe.ApplyCopy` is one step of `io.Copy` with the send on `quit` (pkg/bastion/session.go:149-186), `Pipe.ApplyForward`
  one of a request loop (188-220), `Pipe.ApplyLoop` one of the select loop (222-253), `Pipe.ApplyPeer` a message of the
  other end. `Pipe.Return` includes the deferred closes (123-126).
- `SecretCodec.SealPassword`, `OpenPassword`, `SealKey` and `OpenKey` are what pkg/crypto/crypto.go:212-242 stores and
  shows; `BackupSecrets.RecodePassword` and `RecodeKey` are the decrypt-then-encrypt pairs of pkg/bastion/shell.go:401-424
  and 536-582.
- `BackupRestore.Preloads`, `Refers` and `HasMany` are the preloads of the backup's queries and the foreign keys of
  pkg/dbmodels/dbmodels.go:16-135; `FirstOrCreate`, `FirstLoops` and `LaterLoops` are pkg/bastion/shell.go:534-608.
- `AccessControl.HookAction` is the choice of pkg/bastion/acl.go:76-120 given what the command did.
- `KeyBinding.TypeOf` is pkg/bastion/ssh.go:49-60 and `TokenOf` the split of line 340.

## Assumptions

- Section 5 of RFC 4254 through x/crypto/ssh: Read, Write and SendRequest on a channel return; the request stream of a
  channel ends only when its peer closes it; a channel closed here is in the end closed by its peer (used for
  `PipeLiveness.PipeReturns` only). A channel that was closed, here or by its peer, refuses every message
  (`Pipe.Channel.Refuses`); calls on it are in its history as tried and failed. A reply to a request that wants none does
  nothing and cannot fail. Scheduling is weakly fair (used for liveness only).
- The log writers that wrap a channel write to the log and pass the data on; `LogWrite` writes to the log alone.
- The hop lookup of pkg/bastion/ssh.go:147 fetches the host whose id is `HopID`. Its error branch leaves without a
  session and is not modelled further.
- Host names are unique (pkg/dbmodels/dbmodels.go:54). The database assigns new ids that no row has; key rows, and hosts in
  `HopRoute.DescendingWalksEnd`, get ids greater than all that are present. The id of a removed row may be given again.
- `host update --hop` (pkg/bastion/shell.go:1004-1014) does not look for cycles, and `host rm` (941) leaves the hops that refer
  to the host; `HopRoute.Guarded` has the checks that would be needed, and `HopRoute.SetHopAcyclic` and
  `HopRoute.CreateAcyclic` show that they are exact.
- The write-back of pkg/bastion/ssh.go:355 is meant to store the empty token, as the comment above it says, but updates
  with a struct skip empty fields. The model takes either as the parameter `clears`; what depends on it says so.
- `FirstOrCreate` looks a row up by its id; if there is none it inserts the row, the carried rows whose ids are absent and
  the carried join pairs. A backup written as JSON reads back as it was.
- The server starts with no AES key or one of 16, 24 or 32 bytes (server.go:46-50).
- ACLs with the same id have the same content, as they are rows of one table.

## Model

| member | source | states |
|---|---|---|
| `PipeSafety.StepKeepsTokens` | pkg/bastion/session.go:128-253 | every step of every goroutine keeps: a worker's token is in `quit` or in its flag only if the worker has ended, never in both, and an ended worker's token is in one of them |
| `PipeSafety.StepKeepsOrder` | pkg/bastion/session.go:146-253 | every step before an error return keeps the history of both channels ordered, tied to the four flags and to where the event loop stands |
| `PipeSafety.StepKeepsDelivery` | pkg/bastion/session.go:146-186 | every step keeps: bytes read are exactly those written plus the chunk in hand; a copier that ended without a failure has read everything up to the end of file |
| `PipeSafety.StepKeepsForwarding` | pkg/bastion/session.go:188-220 | every step keeps: SendRequest was called once for each pulled request, unchanged; Reply was called for those owed an answer, with the far side's results, less the one being handled |
| `PipeSafety.StepKeepsLog` | pkg/bastion/session.go:188-207 | every step keeps: the log holds the lines of the exec requests handled so far, and the newline appended for the log never reaches the forwarded payload |
| `PipeSafety.StepKeepsInv` | pkg/bastion/session.go:122-254 | the five invariants together are inductive over all actions |
| `PipeSafety.RunKeepsInv` | pkg/bastion/session.go:122-254 | the invariants hold after every interleaving of any length |
| `PipeSafety.LoopIsQuiet` | pkg/bastion/session.go:222-253 | the event loop never sends data, a request or an answer, and moves no worker |
| `PipeSafety.WorkersBeside` | pkg/bastion/session.go:146-220 | workers and peers never touch the event loop's flags, never drop a buffered error and only append to histories |
| `PipeTheorems.ClosingOrder` | pkg/bastion/session.go:122-253 | in every reachable state before an error return: no data is written after CloseWrite, no data or request is even tried after Close, at most one CloseWrite and none after Close, and each Close of the event loop comes after a CloseWrite (section 5.3 of RFC 4254) |
| `PipeTheorems.OnePlaceEach` | pkg/bastion/session.go:128-253 | in every reachable state each of the four tokens is in exactly one place: with the running worker, waiting to be sent, buffered in `quit`, or recorded in its flag |
| `PipeTheorems.NilReturn` | pkg/bastion/session.go:249-251 | `pipe` returns nil only when all four workers have ended and `quit` is empty |
| `PipeRuns.BrokenIff` | pkg/bastion/session.go:149-186 | over every run: a copier that has ended is marked as broken if and only if one of its Reads or Writes failed in the run |
| `PipeRuns.BytesDelivered` | pkg/bastion/session.go:149-186 | over every run and in both directions: the bytes written are a prefix of what the peer of the other side sent in the run, exactly as many as the Writes accepted, and after a nil return all of them unless a Read or Write of the run failed |
| `PipeRuns.CopierEndsAtEof` | pkg/bastion/session.go:149-186 | a copier none of whose Reads and Writes failed ends only once the peer has ended its data, with all of it written |
| `PipeRuns.RequestsOfRun` | pkg/bastion/session.go:188-220 | the requests, results and failures that the theorems about requests speak of are those of the steps of the run, in order |
| `PipeDelivery.RequestsForwarded` | pkg/bastion/session.go:188-220 | in every reachable state: SendRequest was called once for each request handled so far, with type, flag and payload unchanged and in order, and the requests that went out are those for which it succeeded; the answers given to Reply are the far side's results, in order, and those that went out are those for which it succeeded |
| `PipeDelivery.AllRequestsHandled` | pkg/bastion/session.go:188-251 | at a nil return every request was given to SendRequest, and every answer that is wanted to Reply |
| `PipeDelivery.StepKeepsErrors` | pkg/bastion/session.go:199-217 | every step before an error return keeps: some call failed if and only if an error is buffered in `errch` or a forwarder is about to send one |
| `PipeDelivery.ErrorAtNilReturn` | pkg/bastion/session.go:199-251 | over every run that ends in a nil return, an error is still buffered in `errch` if and only if some SendRequest or Reply of the run failed |
| `PipeDelivery.AllDelivered` | pkg/bastion/session.go:188-251 | at a nil return `errch` is empty if and only if every request of both sides went out, and every answer that is wanted |
| `PipeDelivery.AnswerAfterCloseIff` | pkg/bastion/session.go:202-247 | in every reachable state, a Reply follows the close of a channel by the event loop if and only if, at that close, fewer answers had been given than are owed to the requests of the channel dealt with so far; at a nil return these are all its requests |
| `PipeDelivery.NothingAfterClose` | pkg/bastion/session.go:122-253 | in every reachable state, also after an error return, no byte, request or answer goes out on a channel after it was closed here, as the channel refuses it |
| `PipeTheorems.ExecRequestsLogged` | pkg/bastion/session.go:191-197 | after a nil return the exec log has one line for each of the client's exec requests, in order: its payload followed by a newline |
| `PipeTheorems.AtMostFourTokens` | pkg/bastion/session.go:222-253 | over every run the event loop takes at most four messages from `quit`, and exactly four if it returns nil |
| `PipeTheorems.NilReturnWithError` | pkg/bastion/session.go:224-252 | the case is real: a nil return with an error still buffered is reachable, because the select may serve `quit` first |
| `PipeTheorems.WorkersLeftBehind` | pkg/bastion/session.go:150-226 | over every run after a return: if `quit` is full no further worker ever ends, and if it is empty at most one more, the one whose token is left in `quit` |
| `PipeTheorems.AnswerAfterClose` | pkg/bastion/session.go:202-247 | the case is real: a Reply right after the event loop closed the channel is reachable; it is lost |
| `PipeEventLoop.HandleIs` | pkg/bastion/session.go:227-251 | the steps of the event loop for one token, run without interference, are the flag, the half-close, the two closing tests and the test for returning |
| `PipeEventLoop.HandleReachable` | pkg/bastion/session.go:222-253 | handling a token in one go is one of the interleavings of the transition system |
| `PipeEventLoop.EventLoop.constructor` | pkg/bastion/session.go:222-222 | the variables of the event loop start as in the initial state of the transition system |
| `PipeEventLoop.EventLoop.OnToken` | pkg/bastion/session.go:227-251 | the body that assigns the four variables and calls the channels does to both channels' histories and to the flags exactly what the transition system does, and returns exactly when it returns nil |
| `PipeLiveness.HasStep` | pkg/bastion/session.go:122-254 | a goroutine or event loop that is not blocked has an enabled step, in every state that satisfies the invariants |
| `PipeLiveness.StepMeasure` | pkg/bastion/session.go:122-254 | before `pipe` returns no step raises the measure over pending tokens and remaining input, once the drained side is closed, and the step of the part that is waited for lowers it |
| `PipeLiveness.PipeReturns` | pkg/bastion/session.go:222-253 | in every fair infinite run, if one side ends both its streams, and a channel closed by the event loop has its streams ended by its peer, then `pipe` returns |
| `PipeLiveness.TokenGetsThrough` | pkg/bastion/session.go:150-219 | in every fair run a worker that waits to send on `quit` gets through unless `pipe` returns first |
| `PipeLiveness.ErrorEndsPipe` | pkg/bastion/session.go:199-226 | in every fair run a buffered error makes `pipe` return |
| `Base64Url.RoundTrip` | pkg/crypto/crypto.go:182-186 | decoding inverts padded URL-safe encoding for every byte string, also when newlines are spread through the text |
| `Base64Url.EncodeHasNoNewline` | pkg/crypto/crypto.go:182-182 | the encoding holds no character that the decoder skips |
| `Base64Url.QuantaRoundTrip` | pkg/crypto/crypto.go:182-186 | quantum by quantum, decoding inverts encoding, for each of the three lengths of the last quantum |
| `Base64Url.BadCharacterStops` | pkg/crypto/crypto.go:186-186 | a character that is neither of the alphabet nor padding leaves exactly the bytes of the complete quanta before it |
| `Base64Url.SkipsOnlyNewlines` | pkg/crypto/crypto.go:186-186 | a carriage return or line feed anywhere in a text changes nothing; no other character is skipped |
| `Base64Url.EncodeCharIs` | pkg/crypto/crypto.go:182-182 | each value is encoded by the character at its place in the URL-safe alphabet |
| `Base64Url.DecodeCharIs` | pkg/crypto/crypto.go:186-186 | a character is decoded if and only if it is in that alphabet, and to its place there |
| `Base64Url.EncodeMeetsStandard` | pkg/crypto/crypto.go:182-182 | every character of every encoding: the digit in base 64 of its group of three octets, or the pad where there are no octets left (sections 4 and 5 of RFC 4648) |
| `Base64Url.DecodeQuantum` | pkg/crypto/crypto.go:186-186 | every quantum of any text: the octets of its number in base 64, three, two or one by its pads, which end the decoding; anything else ends it with nothing |
| `Cfb.RoundTrip` | pkg/crypto/crypto.go:180-197 | cipher feedback decryption inverts encryption for every block function, vector and text, with any partial last block |
| `Cfb.EncryptMeetsStandard` | pkg/crypto/crypto.go:180-181 | octet by octet the ciphertext is the text xor the encryption of the previous ciphertext block or the vector (section 6.3 of NIST SP 800-38A) |
| `Cfb.EncryptInto` | pkg/crypto/crypto.go:175-181 | filling the buffer block by block gives the encryption of the text and leaves what stands before it |
| `Cfb.DecryptInPlace` | pkg/crypto/crypto.go:194-197 | decrypting a buffer over itself gives what decrypting it into another one would, and leaves the vector before it |
| `SecretCodec.EncryptSeals` | pkg/crypto/crypto.go:169-183 | with a key of 16, 24 or 32 bytes, and with no other, encryption gives the base64 of the vector followed by the text in cipher feedback, octet by octet |
| `SecretCodec.Encrypt` | pkg/crypto/crypto.go:169-183 | `encrypt` fails exactly on a key of another size or a failing random source; otherwise its result is sealed in this sense, with the random vector first |
| `SecretCodec.Decrypt` | pkg/crypto/crypto.go:185-199 | `decrypt` over one buffer, with the base64 error ignored, equals the value-level definition for every input |
| `SecretCodec.SafeDecryptInvertsEncrypt` | pkg/crypto/crypto.go:169-210 | for every valid key, vector and text, also the empty one, `safeDecrypt` of `encrypt` gives back the text |
| `SecretCodec.SafeDecryptUnchanged` | pkg/crypto/crypto.go:185-210 | `safeDecrypt` returns its argument exactly when the key has a bad size (also none) or the text decodes to fewer than 16 bytes; its result is never longer |
| `SecretCodec.PemUnchanged` | pkg/crypto/crypto.go:48-52 | a text that starts with the PEM header is returned unchanged under every key |
| `SecretCodec.HostSecret.HostEncrypt` | pkg/crypto/crypto.go:212-220 | without a key, or if it is empty, the password stays; otherwise it becomes its sealed form, or is lost if the key has another size |
| `SecretCodec.HostSecret.HostDecrypt` | pkg/crypto/crypto.go:221-228 | the password is replaced by what is seen at use |
| `SecretCodec.KeySecret.SSHKeyEncrypt` | pkg/crypto/crypto.go:230-236 | without a key the private key stays; otherwise it, also an empty one, becomes its sealed form, or is lost if the key has another size |
| `SecretCodec.KeySecret.SSHKeyDecrypt` | pkg/crypto/crypto.go:237-242 | the private key is replaced by what is seen at use |
| `BackupSecrets.OpenSealedPassword` | pkg/crypto/crypto.go:212-228 | what is stored for a password is opened to it again, for no key and for every valid one |
| `BackupSecrets.OpenSealedKey` | pkg/crypto/crypto.go:230-242 | the same for a private key |
| `BackupSecrets.PasswordRecoded` | pkg/bastion/shell.go:536-541 | either command leaves the plain password with `--decrypt`, without a key or if it is empty, and otherwise one that is sealed again |
| `BackupSecrets.KeyRecoded` | pkg/bastion/shell.go:577-582 | the same for a private key, which is sealed even if it is empty |
| `BackupSecrets.ServerKeyIs` | server.go:46-50 | the server starts with no key or one of 16, 24 or 32 bytes |
| `BackupSecrets.PasswordSurvives` | pkg/bastion/shell.go:415-424 | after backup and restore, each with or without `--decrypt`, the password seen at use is the same if and only if neither flag is given, or no key is set, or the plain password decodes to fewer than 16 bytes |
| `BackupSecrets.KeySurvives` | pkg/bastion/shell.go:401-411 | the same if-and-only-if for a private key |
| `BackupSecrets.PemKeySurvives` | pkg/bastion/shell.go:575-587 | a private key that is PEM text at use survives all four combinations of the two flags |
| `BackupSecrets.SeededKeyUsable` | pkg/bastion/dbinit.go:551-561 | a key seeded unencrypted is used as it is under every AES key |
| `BackupRestore.Recodes` | pkg/bastion/shell.go:401-424 | the list a command works through is the list with exactly the secret of each own row recoded |
| `BackupRestore.Database.FirstOrCreateAll` | pkg/bastion/shell.go:547-574 | the loop over a list leaves the database that folding the entries in order gives |
| `BackupRestore.Database.RecodeAndCreateAll` | pkg/bastion/shell.go:534-546 | the same for the loops that decrypt and encrypt again before inserting |
| `BackupRestore.Database.CreateList` | pkg/bastion/shell.go:575-594 | which of the two loops each table takes |
| `BackupRestore.Database.Restore` | pkg/bastion/shell.go:491-615 | with `--confirm` the database becomes the restored one whatever it held before; without it nothing changes |
| `RestoreProofs.StepGood` | pkg/bastion/shell.go:534-608 | every insertion of an entry keeps the restored database within the target and keeps hosts, users and ACLs complete with all they carry |
| `RestoreProofs.Phase` | pkg/bastion/shell.go:534-608 | a whole loop keeps that, and leaves every row of its table present |
| `RestoreProofs.FirstLoopsGood` | pkg/bastion/shell.go:534-560 | after the loops over hosts, users and ACLs, all of these are there with everything they carry, and nothing is there that the target lacks |
| `RestoreProofs.CompleteRows` | pkg/bastion/shell.go:534-608 | once all loops are done no row of the target is missing |
| `RestoreProofs.CompletePairs` | pkg/bastion/shell.go:534-608 | nor any join pair: each is carried by the entity inserted first on its host, user or ACL side |
| `RestoreProofs.CarriesAllPairs` | pkg/dbmodels/dbmodels.go:286-420 | the entry of a row in a backup has all join pairs of the row whose two rows exist, unless it is a role |
| `RestoreProofs.CarriesBothWays` | pkg/dbmodels/dbmodels.go:286-420 | apart from roles and sessions, two rows are nested in each other's entries or in neither |
| `RestoreProofs.BackupStores` | pkg/bastion/shell.go:398-424 | every entry of a backup: the secret of its own row is in clear with `--decrypt`, without a key or as an empty password, and sealed otherwise; all else is as in the row |
| `RestoreProofs.RestoreGivesTarget` | pkg/bastion/shell.go:393-617 | for every database, every backup of it and every choice of flags, restoring gives exactly: all rows but roles no user holds, all join pairs but dangling ones, own secrets recoded twice, and the key of a host as it was stored, because it is inserted with the host |
| `RestoreProofs.RestoreStores` | pkg/bastion/shell.go:534-587 | every row of every restored database: the key of a host is stored as it was; any other secret is, as the backup shows it, in clear with `--decrypt`, without a key or as an empty password, and sealed under the key otherwise |
| `RestoreProofs.PemUnambiguous` | pkg/crypto/crypto.go:48-52 | a PEM private key is never taken for ciphertext, so only passwords can make `--decrypt` lossy |
| `RestoreProofs.RestorePreservesView` | pkg/bastion/shell.go:393-617 | the restored database looks the same at use if and only if neither command is given `--decrypt` or none of the secrets that are recoded would be taken for ciphertext when plain |
| `RestoreProofs.ViewRow` | pkg/bastion/shell.go:401-424 | the same if-and-only-if for one row |
| `RestoreProofs.EntrySameIff` | pkg/bastion/shell.go:393-617 | the entry of one row, with its nested rows and relations, shows the same in the first backup and in one taken after the restore, if and only if its secrets meet the condition on the three `--decrypt` flags |
| `RestoreProofs.SecondBackup` | examples/integration/_client.sh:56-65 | backup, restore and backup again show the same entries of a table, with secrets compared after decryption, if and only if each of its rows meets that condition: always without `--decrypt`; with it, exactly if no secret that is decrypted once more would be taken for ciphertext |
| `AccessControl.StoreIfShared` | pkg/bastion/acl.go:32-41 | the two inner loops store the ACL exactly if its id is in some host group and the time is strictly inside its window |
| `AccessControl.SharedAcls` | pkg/bastion/acl.go:28-43 | the four loops leave a map whose entries are eligible ACLs under their own id, and in which every eligible id is present |
| `AccessControl.MapIsEligible` | pkg/bastion/acl.go:28-43 | with one content per id the map holds exactly the eligible ACLs |
| `AccessControl.EligibleIff` | pkg/bastion/acl.go:30-41 | an ACL applies if and only if it is in a group of the user, shares its id with one in a group of the host, its inception is absent or before now, and its expiration is absent or after now |
| `AccessControl.ClosedDoesNotMatter` | pkg/bastion/acl.go:35-36 | an ACL not past its inception, or at or past its expiration, put into any groups of either side, leaves the applicable ACLs the same |
| `AccessControl.HookIs` | pkg/bastion/acl.go:76-120 | a hook that prints allow or deny, with or without a newline, is followed; any other outcome keeps the action, and is an error unless there is no command |
| `AccessControl.NothingSharedDenies` | pkg/bastion/acl.go:46-53 | without an applicable ACL and without a command the answer is deny, and only that |
| `AccessControl.SortByWeight` | pkg/bastion/acl.go:19-60 | sorting in place through Swap ends in an order by weight that is a permutation, with the choice among equal weights left open |
| `AccessControl.Iterate` | pkg/bastion/acl.go:55-59 | map iteration gives every value, in any order |
| `AccessControl.CheckACLs` | pkg/bastion/acl.go:25-68 | the action returned is what the hook makes of the action of some lightest eligible ACL, or of deny if there is none, for every group nesting, map order and unstable sort |
| `AccessControl.FirstIsLightest` | pkg/bastion/acl.go:55-62 | the first of any sorted permutation of the ACLs is a lightest one |
| `AccessControl.AnyLightestCanWin` | pkg/bastion/acl.go:55-62 | conversely each lightest ACL comes first in some sorted order, so the specification allows no more than the code can do |
| `AccessControl.OneDecision` | pkg/bastion/acl.go:55-68 | if all lightest ACLs share an action the decision is one |
| `AccessControl.GroupingDoesNotMatter` | pkg/bastion/acl.go:28-43 | permuting or repeating groups, or ACLs in groups, leaves the eligible ACLs the same |
| `AccessControl.HeavierDoesNotMatter` | pkg/bastion/acl.go:23-62 | adding an ACL heavier than an eligible one, to any groups of the user, of the host or of both, leaves the possible decisions the same |
| `AccessControl.ClockDoesNotMatter` | pkg/bastion/acl.go:35-36 | with no inception or expiration between two instants or at them, the eligible ACLs are the same |
| `AccessControl.AllowedOnlyBy` | pkg/bastion/acl.go:25-120 | access can be allowed if and only if the hook printed allow, or it did not print deny and some lightest eligible ACL allows |
| `HopRoute.FindNext` | pkg/bastion/ssh.go:145-155 | the two queries give the host whose id is `HopID`, and nothing if that row is missing or there is no hop |
| `HopRoute.NextHostIsHop` | pkg/bastion/ssh.go:145-155 | with unique names, looking the name up again finds the same row |
| `HopRoute.Walk` | pkg/bastion/ssh.go:125-156 | the loop gives up if and only if some host it looks at has no client configuration or an action other than allow; otherwise the hosts looked at are the hop chain and the configurations its exact reverse |
| `HopRoute.WalkEnds` | pkg/bastion/ssh.go:125-156 | the loop ends if and only if the hop chain does or a host along the hops fails its check |
| `HopRoute.RouteCoversConfigured` | pkg/bastion/ssh.go:145-155 | the hosts of the chain are those configured if and only if none of them has a hop that is missing from the table; otherwise just the missing one is left out |
| `HopRoute.RouteShape` | pkg/bastion/ssh.go:139-156 | a route is not empty, ends with the requested host, and each host on it is the hop of the next |
| `HopRoute.DialHops` | pkg/bastion/session.go:36-58 | the first dial is direct and each other goes through the host before it; it stops at the first failure, and closes the client channel only if that is the first dial |
| `HopRoute.ChainUnique` | pkg/bastion/ssh.go:127-156 | a host has at most one hop chain |
| `HopRoute.AllEnd` | pkg/bastion/ssh.go:127-156 | the walk ends from every host if and only if the hop graph has no cycle |
| `HopRoute.DecreasingIds` | pkg/bastion/ssh.go:127-156 | if ids decrease along hops there is no cycle |
| `HopRoute.SetHopAcyclic` | pkg/bastion/shell.go:1004-1014 | setting a hop keeps the graph without cycles if and only if the walk from the new hop does not visit the host |
| `HopRoute.CreateEffect` | pkg/bastion/shell.go:763-772 | a host is created unless its name is empty or taken or its hop is not found; it is then found by its name, has the hop asked for, and nothing else changes |
| `HopRoute.RenameEffect` | pkg/bastion/shell.go:979-988 | a renamed host is found by its new name, keeps its hop, and nothing else changes; a name that is taken or empty changes nothing |
| `HopRoute.HopEffects` | pkg/bastion/shell.go:1004-1038 | `--hop` makes the host found by that name the hop, `--unset-hop` makes the host its own whole chain, `host rm` removes just the host; nothing else changes |
| `HopRoute.CreateAcyclic` | pkg/bastion/shell.go:763-769 | a host created with a hop leaves the hops without a cycle if and only if the walk from that hop does not end at a host whose own hop was removed and had the id that the new host gets |
| `HopRoute.CreateKeepsValid` | pkg/bastion/shell.go:763-769 | `host create` keeps names unique and hops without cycles, always without a hop, and with one when the condition above is met |
| `HopRoute.CreateCanMakeCycle` | pkg/bastion/shell.go:763-941 | the case is real: after creating two hosts, giving the first the second as its hop and removing the second, a new host with the same id and the first as its hop closes a cycle, although its id is above all that are present |
| `HopRoute.CommandKeepsValid` | pkg/bastion/shell.go:995-1038 | so do `--unset-hop`, renaming and removing always, and `--hop` when the walk from the new hop does not visit the host |
| `HopRoute.RunKeepsValid` | pkg/bastion/shell.go:763-1038 | and every run of commands that meet these two conditions |
| `HopRoute.EveryWalkEnds` | pkg/bastion/ssh.go:127-156 | after any such run from an empty table, the walk from every host ends |
| `HopRoute.CommandKeepsDecreasing` | pkg/bastion/shell.go:763-1038 | if each hop, also a missing one, has a smaller id than its host, this is kept by `host create` with an id above all others, `--unset-hop`, renaming and removing, and by `--hop` to a host with a smaller id |
| `HopRoute.DescendingWalksEnd` | pkg/bastion/ssh.go:127-156 | so after every run of these the hops have no cycle and the walk from every host ends, whatever was removed in between |
| `HopRoute.SelfHopNeverEnds` | pkg/bastion/shell.go:1004-1014 | giving a host itself as its hop, which nothing prevents, leaves a walk that never ends |
| `SessionLifecycle.StepKeepsInv` | pkg/bastion/ssh.go:158-188 | every step keeps: while the process is up a row is active if and only if it is handled, or its end is about to be written, or that write failed; no session is two of these |
| `SessionLifecycle.ActiveIff` | pkg/bastion/ssh.go:172-188 | after every run with restarts, while the process is up: a row is active if and only if its handler runs, or has ended without its end being written yet, or the write failed since the start |
| `SessionLifecycle.NoOrphanIff` | pkg/bastion/ssh.go:187-187 | no row is active without anything left to close it, if and only if no write-back was lost |
| `SessionLifecycle.LostIff` | pkg/bastion/ssh.go:187-187 | a write-back is lost if and only if it failed after the last start of the run |
| `SessionLifecycle.NoneActiveAfterStart` | pkg/bastion/dbinit.go:673-677 | after every run that ends with a start no row is active |
| `SessionLifecycle.StatusOnlyCloses` | pkg/bastion/ssh.go:178-187 | over any part of any run rows stay, keep their user and host, and never leave the closed status |
| `SessionLifecycle.EveryRowGranted` | pkg/bastion/ssh.go:127-171 | each row comes from a connection of its user to its host for which every host of the hop chain passed its own check |
| `SessionLifecycle.EveryRowAllowed` | pkg/bastion/ssh.go:209-239 | over every run: a session row exists only if, for each host of the hop chain, the hook printed allow, or it did not print deny and some lightest eligible ACL allows |
| `SessionLifecycle.RowAppearsIff` | pkg/bastion/ssh.go:127-171 | a row appears if and only if a connection is stored and every host of its hop chain has a client configuration and an allow action; it is then active, without an error, and handled |
| `SessionLifecycle.AdmittedIsHandled` | pkg/bastion/ssh.go:158-187 | over every run: the row of such a connection stays active and as it was, and is handled, until its handler ends or the process halts |
| `SessionLifecycle.Server.Connect` | pkg/bastion/ssh.go:125-171 | an active row without an error is added and handled if and only if the database takes it and every host of the hop chain has a client configuration and an allow action, also if the hops have a cycle that a failing check cuts off; otherwise nothing changes |
| `SessionLifecycle.Server.End` | pkg/bastion/ssh.go:172-176 | the session is no longer handled, its error waits to be written, and every row and every other session is as it was |
| `SessionLifecycle.Server.WriteBack` | pkg/bastion/ssh.go:178-187 | the row becomes closed with the error of the handler, or its old message if there is none, and no other row changes; if the write fails no row does |
| `SessionLifecycle.Server.StartUp` | pkg/bastion/dbinit.go:673-677 | no row is added or removed; every active row is closed with the message of a halted server and the others are untouched, or, if that fails, the process does not come up and nothing changes |
| `LogTunnel.SignedRoundTrip` | pkg/bastion/logtunnel.go:32-40 | a number written with a fixed width is read back if and only if it fits the field |
| `LogTunnel.SignedBytesRoundTrip` | pkg/bastion/logtunnel.go:32-40 | conversely every field is the bytes of the number it reads as |
| `LogTunnel.FourBytes` | pkg/bastion/logtunnel.go:32-40 | the four bytes of a number are its digits in base 256, the lowest first |
| `LogTunnel.FrameLayout` | pkg/bastion/logtunnel.go:54-61 | a call's frame is seconds, microseconds, the length of what follows, the name of the host, a colon, a space and the data |
| `LogTunnel.FirstOfBytes` | pkg/bastion/logtunnel.go:27-63 | the frame at the head of a log is read back, with the rest, if and only if its header can express it |
| `LogTunnel.BytesOfFirst` | pkg/bastion/logtunnel.go:27-63 | a frame that was read is the one whose bytes are there |
| `LogTunnel.ParseInvertsLogOf` | pkg/bastion/logtunnel.go:27-63 | a log parses into exactly the frames written if and only if each fits, for 4 and 8 bytes of microseconds |
| `LogTunnel.LogOfParse` | pkg/bastion/logtunnel.go:27-63 | for every byte string, what parses and what is left make up the string again |
| `LogTunnel.FramingIsUnique` | pkg/bastion/logtunnel.go:27-63 | no two series of frames have the same bytes |
| `LogTunnel.FrameOfCall` | pkg/bastion/logtunnel.go:27-63 | the bytes of one call, and when its times are seen as they were: seconds wrap at 32 bits |
| `LogTunnel.LogGivesData` | pkg/bastion/logtunnel.go:54-63 | for every series of writes through any tunnels the log parses into their frames if and only if every framed length fits an int32, and each frame less the name of its host is the data of its call |
| `LogTunnel.FullLogGivesFirstCalls` | pkg/bastion/logtunnel.go:56-61 | a log that ran out of room parses into the frames that it holds whole, in order |
| `LogTunnel.Tunnel.WriteHeader` | pkg/bastion/logtunnel.go:27-41 | the three fields are appended, as far as the writer takes them |
| `LogTunnel.Tunnel.Write` | pkg/bastion/logtunnel.go:54-64 | the log grows by the call's frame as far as it has room, and the channel gets the data and decides the result, whether or not the log could be written |
| `TelnetLines.LineEnd` | pkg/bastion/telnet.go:72-77 | the first newline, if there is one |
| `TelnetLines.ConvertSplits` | pkg/bastion/telnet.go:50-66 | wherever the input is cut, converting the parts, with what was pending put before the second, gives the conversion of the whole |
| `TelnetLines.EachLineIsSent` | pkg/bastion/telnet.go:50-77 | for lines within the limit: each line less one trailing CR, followed by CR LF; an unterminated tail is dropped |
| `TelnetLines.LineIsSent` | pkg/bastion/telnet.go:50-53 | one line, octet by octet: less one trailing 13, with 13 and 10 after it; a line of 65536 octets or more stops the scanner |
| `TelnetLines.InputIsLines` | pkg/bastion/telnet.go:72-77 | every input is such lines and such a tail |
| `TelnetLines.ConvertAgain` | pkg/bastion/telnet.go:50-66 | converting the output again changes nothing if and only if no line grows beyond the scanner limit by the CR it gains |
| `TelnetLines.LastReadMatters` | pkg/bastion/telnet.go:73-75 | bytes that arrive together with the end of file make no difference if and only if they complete no line |
| `TelnetLines.Scanner.Scan` | pkg/bastion/telnet.go:47-50 | a token is the next line of all that is not scanned, however it was read; there is none exactly when no further line is complete within the limit before the end |
| `TelnetLines.CallTelnet` | pkg/bastion/telnet.go:41-66 | the host receives the conversion of everything read before the last read, as far as it takes it, for every way of splitting the input; if the end comes alone that is the whole input |
| `SessionListing.Database.Find` | pkg/bastion/shell.go:2243-2265 | each query returns the rows from its offset on, as many as there are up to the limit, of the order it is answered in; an offset of -1 is none |
| `SessionListing.NewestFirst` | pkg/bastion/shell.go:2238-2243 | an answer starts with the row created last and holds all rows, or just the active ones |
| `SessionListing.List` | pkg/bastion/shell.go:2238-2268 | for every limit (60000 in the code) the loop ends, after one query more than there are full pages, with as many rows as there are |
| `SessionListing.ListingIsOrdered` | pkg/bastion/shell.go:2252-2267 | without a tie at a page break the first pages hold each of the first rows once, newest first, even if every query is answered in an order of its own |
| `SessionListing.TieCanRepeat` | pkg/bastion/shell.go:2257-2266 | with such a tie the queries can be answered so that a row is listed twice |
| `SessionListing.ListingIsAnswer` | pkg/bastion/shell.go:2238-2268 | the listing is the full ordered query, for all answers of the database, if and only if no two rows created at the same time are on either side of a page break |
| `SessionListing.SameOrderGivesAnswer` | pkg/bastion/shell.go:2252-2267 | if all queries are answered in one order the listing is that order, ties or not, also for exact multiples of the limit |
| `KeyBinding.Server.PublicKeyAuth` | pkg/bastion/ssh.go:328-369 | a bound key changes no table, gives the user of its row, and is an error exactly for an invite; otherwise a redeemed invite gives its user, adds the key row if that can be stored, and clears the token; else nothing changes and the error says whether it was an invite |
| `KeyBinding.InviteIff` | pkg/bastion/ssh.go:49-60 | a user name is an invite if and only if it starts like one and is not the account's own name or email; healthcheck, the shell and hosts take the other names, as stated |
| `KeyBinding.BoundIff` | pkg/bastion/ssh.go:329-330 | a key is bound by the first row for it, if that belongs to a user |
| `KeyBinding.RedeemsIff` | pkg/bastion/ssh.go:339-344 | an invite is redeemed if and only if the key is not bound, for the first user whose token stands between the first two colons, and is not empty |
| `KeyBinding.AdminEffects` | pkg/bastion/shell.go:2070-2193 | a key that is added is bound if and only if it is new to the table and belongs to a user; removing keys, setting and removing a user change just these |
| `KeyBinding.KeysChangeIff` | pkg/bastion/ssh.go:338-351 | the key table changes if and only if a token is redeemed and the row could be created |
| `KeyBinding.InviteBinds` | pkg/bastion/ssh.go:340-351 | an invite binds the key to the user it was for if and only if the table held no row for the key; no other binding changes |
| `KeyBinding.StepKeepsBinding` | pkg/bastion/ssh.go:328-355 | no event but its removal changes which row binds a key, or that row |
| `KeyBinding.BindingLasts` | pkg/bastion/ssh.go:328-355 | so over every run of connections and administrator commands that leaves the row, it stays the row that binds the key, with its user id |
| `KeyBinding.ResolvesIff` | pkg/bastion/ssh.go:328-336 | after every such run a connection with the key is taken for the user of the row if and only if that user is in the table, and for none otherwise |
| `KeyBinding.UserStaysIff` | pkg/bastion/shell.go:1745-1745 | a user in the table is there throughout a run if and only if the run does not remove it |
| `KeyBinding.ResolvesThroughout` | pkg/bastion/ssh.go:328-336 | a key that resolves to a user does so throughout a run that leaves its row, if and only if the run does not remove the user |
| `KeyBinding.KeyPassesToNextUser` | pkg/bastion/shell.go:1745-1745 | the case is real: removing a user leaves its keys, which resolve to nobody, and then to whoever is given the same id |
| `KeyBinding.TokensAreConserved` | pkg/bastion/ssh.go:340-355 | if the empty token is stored: over every run a token is redeemed, and still held, no more often than it was given out |
| `KeyBinding.OneUse` | pkg/bastion/ssh.go:353-355 | so a token of one user, not given out again, binds at most one key |
| `KeyBinding.SpentIff` | pkg/bastion/ssh.go:353-355 | a redeemed token can be redeemed by another key if and only if the write-back kept it or another user has it |
| `KeyBinding.TokenKeptBindsTwoKeys` | pkg/bastion/ssh.go:353-355 | if the write-back skips the empty token, in every state one invite binds any two new keys |
| `KeyBinding.TokenOfInvite` | pkg/bastion/ssh.go:55-56 | an invite user name carries its token |
| `HostKeys.Host.Check` | pkg/bastion/ssh.go:62-74 | a host without a key learns the one it is shown; otherwise only the stored key is accepted |
| `HostKeys.AcceptedKeysAgree` | pkg/bastion/ssh.go:62-74 | over every run of one connection after another, all accepted keys are the same key |
| `HostKeys.AcceptedIff` | pkg/bastion/ssh.go:62-74 | a connection is accepted if and only if the key it shows is the one stored after it |
| `HostKeys.LearntKeyIs` | pkg/bastion/ssh.go:62-74 | over every run the stored key is the one known before, or else the first that was shown and stored |

## Left out

- The early error returns of `pipe` before its goroutines start (log file, malformed forward data).
- What the session log holds of the copied data; only the lines of exec requests are modelled.
- The order of tried calls after an error return of `pipe`; `PipeTheorems.WorkersLeftBehind` says which goroutines never
  end then, and `PipeDelivery.NothingAfterClose` that nothing goes out.
- An empty `errch` after a nil return is not promised; `PipeDelivery.ErrorAtNilReturn` says when it is empty.
- Overlapping writes of two tunnels to one log: they interleave and do not stay framed.
- The hook command, network, terminals, files and randomness: their results are parameters.
- Key generation, import and parsing, AES itself, and the public key formats.
- The command line: flags, output, help, `ls` and `inspect` other than the session pages, `session ls --latest`, name
  lookups by id or pattern.
- Schema migrations, except the seeded keys and the closing of active sessions.
- Rows of events in backup and restore: their arguments are not serialised (pkg/dbmodels/dbmodels.go:144-145).
- Timestamps, soft deletion and the columns that are copied as they are: one attribute stands for them.
- A restore whose encryption or insertion fails: on a failing encryption the transaction is neither committed nor rolled
  back.
- A failing query of the page loop, and rows that are added while it runs.
- Receiving from a telnet host, the escapes of the telnet protocol, and a reader that returns nothing a hundred times.
- Two first connections to a host at the same time: both may learn a key.
- Restoring a backup while keys are being bound or sessions are open.
- The text of errors and messages, and the name that an anonymous connection is shown under.
- HopRoute.Walk: is stated for a walk that ends; `HopRoute.WalkEnds` and `HopRoute.AllEnd` say when that is so, and
  `HopRoute.SelfHopNeverEnds` that it can fail.
- SessionLifecycle.Server.Connect: is stated for a walk that ends, like `HopRoute.Walk`; one that does not end creates no
  row, which `SessionLifecycle.Apply` has.
- HopRoute.DialHops: opening the last channel after the dials, and closing the clients at the end, are not part of it.
- TelnetLines.CallTelnet: bytes that come together with the end of the input are not sent even if they complete lines, as
  in the code; the room of the scanner's buffer is taken to be all that its limit allows, which admits more ways of
  splitting the input than the code has.
- SecretCodec.HostSecret.HostEncrypt: the random source does not fail here; `SecretCodec.Encrypt` has that case.
- LogTunnel.Tunnel.Write: the clock is a parameter, and a writer that fails takes nothing more.
