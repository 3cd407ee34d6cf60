# A verified model of tpm2 policies, the key cache and the wire codec

This project models four parts of the repository in Dafny and proves what they
promise, for all inputs and over whole runs. `dafny verify dfyconfig.toml` checks it.

**The policy language** (`crates/policy-language`). Text is tokenized, parsed, printed,
compiled to a stream of PolicyPCR, PolicySecret, PolicyRestart and PolicyOR commands
together with a session digest, and rebuilt from such a stream. `PolicyDigest` holds the
reference: `Emit`, the stream as a function of the expression, and `DigestOf`, a
compositional digest in which an Or depends only on what its branches give from zero.
`PolicyCompiler` is the code's walk over a session that it overwrites, proved equal to
that reference; `PolicyReplay` runs the stream on a session of its own, with the
membership check of TPM2_PolicyOR; `PolicyDecompiler` and `PolicyNormalForm` are the
stack machine and what it makes of a compiled policy; `PolicyPcrText`, `PolicyParser`
and `PolicyText` are the reader and the printer. `PolicyBinding` and `PolicyBoundForm`
say what a policy digest binds. `PolicyBytes` and `PolicyGrammar` tell, apart from these
functions, which bytes are hashed and which commands emitted, and what each text is read
as, down to the digit table and the errors. The hash is any function with a fixed output
size. The standard is the TPM 2.0 Library Specification, Part 3, sections 11.2, 23.4,
23.6 and 23.7.

**The key cache** (`crates/vtpm`). `VtpmStore` is the state of the cache together with
its directory, and the invariant. `VtpmNames` is about the name index. `VtpmCache` is
the cache as an object that updates its fields, over a directory whose every write and
deletion may fail. `VtpmLinks` is about parent links, `VtpmRuns` about whole runs,
`VtpmRecord` and `VtpmPolicyList` about the record format, `VtpmRestart` puts the real
records and names under the cache, `VtpmBytes` lays out records and names byte by byte,
and `VtpmWitnesses` holds runs on real keys that show where its promises end.

**The wire codec and the frames** (`crates/protocol`). The generating macros are one
interpreter over a schema (`WireSchema`): integers, enumerations, sized buffers, counted
lists, pairs, tagged pairs, unions and sized structures. `WireCodec` has the encoder,
the owned decoder and the borrowed validator, `WireWriter` the writer that all
marshalling runs on, `WireTypes` the instances. `Frame`, `FrameMarshal`, `FrameTheorems`
and `FrameReproduction` are the command and response frames around any body. What holds
of any schema does not say what a TPM structure looks like: `WireLayouts` and
`FrameLayouts` give the bytes of the structures and frames field by field, and
`WireFaults` the numbers that enumerations admit and the error of each malformed
encoding. The standard is Part 2, sections 10.4, 11 and 12, and Part 1, section 18.

**Three loops.** `PcrReader` reads PCRs until nothing is left to ask for, `HandlePattern`
reads and matches handle wildcards, and `Kdf` is the two counter-mode key derivations
(SP 800-108, section 5.1; SP 800-56A, section 5.8.1).

Code that overwrites fields or fills a buffer is a class or an array here, with methods
proved against a specification function; the theorems are about that function. Code made
of expressions is functions. Failures of the surroundings (a disk write, a device
answer, the order of a hash map) are arbitrary choices, so what is proved holds for each
of them. `WireOutput` is what marshalling puts out before it ends or an error stops it;
`WireWriter.Wrote` says what writing such an output leaves in the buffer and which error
it reports.

## Where a promise holds only under a condition

- Print then parse gives the expression back exactly for the expressions the parser can
  return (`PolicyText.PrintParse`): at least two terms in each And and Or, no first term
  of its own kind, readable PCR names and registers, no empty copy_ref. A one-term group
  loses its parentheses (`PolicyText.OneTermUnwraps`).
- Decompiling a compiled policy gives the very expression exactly when it was in normal
  form (`PolicyNormalForm.DecompileExact`); a nested And comes back flat
  (`PolicyNormalForm.NestedAndFlattened`).
- A compiled stream passes the membership check of TPM2_PolicyOR exactly when each Or has
  at least as many branches as the TPM demands (`PolicyReplay.ReplayEmit`); an empty Or
  compiles and is refused (`PolicyReplay.EmptyOrRefused`).
- Two compiled policies have one digest exactly when their normal forms agree in what
  stands after the last Or of each branch, and in that Or, if the hash tells apart the
  finitely many inputs that computing the two digests hashes, gives none of them the zero
  digest, and no two handles of the policies have one name
  (`PolicyBoundForm.DigestBindsForm`). A one-byte hash can do that
  (`PolicyBoundForm.LengthHashTellsApart`).
- A value survives encoding and decoding unchanged exactly when no Null-tagged symmetric
  definition in it has details (`WireTheorems.DecodeEncodeExact`); such a value exists
  (`WireInstances.HiddenDetailsLost`).
- An unmarshalled command or response marshals to the very frame it came from, for some
  sessions, exactly when a sessions tag goes with sessions no longer than the marshaller's
  (`FrameReproduction.CommandReproduces`, `FrameReproduction.ResponseReproduces`).
  Validation asks for neither: a command whose authorization area is empty unmarshals, and
  is never marshalled (`FrameReproduction.SessionlessNotMarshalled`).
- A saved record loads exactly when it is at most 16 KiB, has at most sixteen policy
  steps and each step is readable: its structure marshals, or its code is supported and
  its body decodes to the end (`VtpmRecord.RecordRoundTrip`, `VtpmPolicy.StepReadable`).
  The saver checks none of this (`VtpmRestart.CrowdedKeyLost`).
- A cache opens on a directory exactly when each supplied handle is persistent and each
  key that loads can be named (`VtpmCache.Cache.Open`). A key whose name algorithm is no
  hash saves, loads and has no name, so its record alone makes opening fail
  (`VtpmWitnesses.NamelessKeyRefused`).
- After a whole subtree is removed, every survivor can still be followed up to a root
  exactly when none hangs by a name alone: its parent is not cached, and the key that its
  parent's name leads to is removed (`VtpmLinks.RemovalKeepsParents`). That takes two
  different cached areas with one name (`VtpmLinks.HangingCollides`), so a digest that
  tells the cached areas apart is enough (`VtpmRestart.RemovalOnKeys`); with one that does
  not, such a run exists (`VtpmWitnesses.CollisionOrphans`).
- A removal that fails part of the way can leave a child without its parent
  (`VtpmWitnesses.FailedRemovalOrphans`). After any removal, whole or part, a key that
  stays has a parent exactly when it needs none, a cached one stays, or its name did not go
  with a removed key (`VtpmLinks.RemovalResolves`, `VtpmLinks.PartialKeepsResolvable`).
- Every live key is found by its name in every state of a run exactly when no operation
  of the run removes or renames a key that its name leads to while another live key has
  that name (`VtpmRuns.RunFindable`, `VtpmNames.FindableEvict`, `VtpmNames.FindableInsert`).
  Saving two keys with one public area and removing the second hides the first
  (`VtpmWitnesses.SharedNameHidden`).
- What a name finds has that name, in every state of a run, exactly when no key is saved
  at a handle to which a supplied entry gives another name (`VtpmRuns.RunAgrees`). The
  code does not check this (`VtpmWitnesses.SuppliedNameWrong`).
- Looking for the ancestors of a key ends, for every choice among parents with equal
  public areas, exactly when no way up from that key meets a key twice
  (`VtpmLinks.ClimbsBounded`). A key saved with its own public area as its parent makes it
  go on for ever (`VtpmWitnesses.SelfParentNeverEnds`). Removal ends on any links.
- Reading PCRs from a device whose answers depend on the request alone ends exactly when
  no request that it reaches has a storable answer that covers nothing of it
  (`PcrReader.EndsUnlessStuck`), and then within one round for each register asked for
  (`PcrReader.InTimeOrNever`). Empty answers make it go on for ever
  (`PcrReader.EmptyAnswersNeverEnd`).
- Everything selected is read, within one round for each selected register, from a device
  that answers what reading can ask it for (the banks it was given, in order, and some of
  the selected registers) truthfully and never with nothing (`PcrReader.AllReadInTime`).
  What it does with other requests does not matter, and a device that gives eight values
  at most is one of these (`PcrReader.BytewiseRead`).
- A command or response unmarshals to the very parameters marshalled exactly when they
  hide no details behind a Null tag (`FrameTheorems.CommandRoundTrip`,
  `FrameTheorems.ResponseRoundTrip`).

## Where the code and its documentation differ

The model follows the code.

- `compile` is documented to return serialized commands with authorization areas
  (`crates/policy-language/src/expression.rs:227-237`); it returns typed commands, each
  with an empty authorization list.
- `from_commands` is documented as the inverse of `compile`
  (`crates/policy-language/src/expression.rs:143-146`); it is, up to normal form.
- `find_by_name` is documented to scan the cache after the live handles
  (`crates/vtpm/src/lib.rs:388-391`); it never scans.
- `new` is documented to fail when a stale context cannot be cleaned up
  (`crates/vtpm/src/lib.rs:312-320`); such a failure is only logged.
- `save_transient` is documented to fail only for want of a slot
  (`crates/vtpm/src/lib.rs:532-539`); it also fails for a public area that has no name.

## Model

| member | source | states |
|---|---|---|
| `PolicyCompiler.PolicySession.constructor` | crates/policy-language/src/lib.rs:484-494 | a fresh session holds as many zero bytes as its hash has, and keeps that hash |
| `PolicyCompiler.PolicySession.PolicyPcr` | crates/policy-language/src/lib.rs:497-523 | the new digest is the hash of the old one, the command code, the marshalled selection and the PCR digest (Part 3, section 23.7) |
| `PolicyCompiler.PolicySession.PolicyOr` | crates/policy-language/src/lib.rs:526-546 | the new digest is the hash of a zero digest, the command code and the branch digests in order: what the session held is gone (Part 3, section 23.6) |
| `PolicyCompiler.PolicySession.PolicySecret` | crates/policy-language/src/lib.rs:549-575 | the new digest is two hashes deep: over old digest, command code and entity name, then over that and the policy reference (Part 3, section 23.4) |
| `PolicyCompiler.PolicySession.PolicyRestart` | crates/policy-language/src/lib.rs:578-582 | the digest is zero again (Part 3, section 11.2) |
| `PolicyCompiler.SelectionsEncode` | crates/policy-language/src/lib.rs:497-506 | the selection bytes hashed into the session are exactly its TPML encoding, and always fit the buffer the code reserves, so that marshalling cannot fail |
| `PolicyAst.SelectedFromMembers` | crates/policy-language/src/expression.rs:305-310 | the ascending list of a mask holds exactly the registers whose bit is set |
| `PolicyCompiler.CollectPcrs` | crates/policy-language/src/expression.rs:299-321 | the nested bank, byte and bit loops give the PCR data of the specification, which is the stored digests of the selected registers joined bank by bank in ascending register order (PolicyBytes), or the first missing bank or register |
| `PolicyCompiler.CollectBank` | crates/policy-language/src/expression.rs:299-321 | one bank: the digests of exactly the set bits, in ascending order |
| `PolicyCompiler.CollectByte` | crates/policy-language/src/expression.rs:299-321 | one mask byte adds exactly the digests of its eight bits to what was collected |
| `PolicyDigest.PcrDataOk` | crates/policy-language/src/expression.rs:299-321 | the PCR data exists if and only if each named bank is known and holds every selected register |
| `PolicyDigest.EmitOk` | crates/policy-language/src/expression.rs:260-440 | compiling succeeds if and only if a caller-checkable condition holds: PCR data present or digest given, names known, secrets naming a handle, no Or over eight branches |
| `PolicyCompiler.Compiler.Walk` | crates/policy-language/src/expression.rs:260-284 | the step-by-step walk appends exactly the command stream of the compositional compiler and leaves the session at the compositional digest, for every expression and every starting digest; on failure it reports the same error |
| `PolicyCompiler.Compiler.WalkAnd` | crates/policy-language/src/expression.rs:260-284 | the same for a conjunction, term after term in one session |
| `PolicyCompiler.Compiler.WalkPcr` | crates/policy-language/src/expression.rs:286-341 | the same for a PCR term, with the digest given or computed from the context |
| `PolicyCompiler.Compiler.WalkSecret` | crates/policy-language/src/expression.rs:343-402 | the same for a secret term, with every refused operand and missing name |
| `PolicyCompiler.Compiler.WalkOr` | crates/policy-language/src/expression.rs:404-440 | the same for a disjunction: restart and walk each branch, then one PolicyOR over their digests |
| `PolicyCompiler.Compiler.WalkBranches` | crates/policy-language/src/expression.rs:410-427 | each branch is walked from a restarted session; its digest is the one taken from zero, and a ninth branch is refused |
| `PolicyCompiler.Compiler.WalkBranch` | crates/policy-language/src/expression.rs:414-424 | one branch emits a restart and then its own stream, whatever the session held |
| `PolicyCompiler.Compile` | crates/policy-language/src/expression.rs:245-258 | the result is the compositional stream with the digest taken from zero, or the first error; a non-hash algorithm fails first; PolicyBytes says which commands and bytes these are |
| `PolicyReplay.ReplayEmit` | crates/policy-language/src/expression.rs:260-440 | replaying the emitted stream against a session that checks PolicyOR membership (Part 3, section 23.6) gives the compositional digest exactly when every Or has the required least number of branches, and is stopped otherwise |
| `PolicyReplay.EmptyOrRefused` | crates/policy-language/src/expression.rs:404-440 | an Or without branches compiles, and its stream is refused |
| `PolicyReplay.ReplayOr` | crates/policy-language/src/expression.rs:404-440 | the same for one disjunction: each branch ends at a digest that is in the list, so the check passes |
| `PolicyReplay.CompiledDigestReplays` | crates/policy-language/src/expression.rs:245-258 | the returned digest equals replaying the emitted commands from the zero digest |
| `PolicyReplay.OrForgets` | crates/policy-language/src/expression.rs:404-440 | a conjunction that ends in an Or has the digest of that Or alone: terms before it do not count |
| `PolicyBinding.DigestOfClaims` | crates/policy-language/src/expression.rs:260-440 | the digest of a policy is the digest of what it claims: PCR values, names with policy references, and alternatives, where an alternative replaces all that stood before it |
| `PolicyBinding.NoNameDigest` | crates/policy-language/src/lib.rs:549-575 | no session digest is the hash that a secret’s second hash starts with, so the two hashes of a secret are never taken for another command |
| `PolicyBinding.Binds` | crates/policy-language/src/lib.rs:497-575 | claims with one digest are the same claims, if the hash tells apart the finitely many inputs hashed |
| `PolicyBinding.DigestBinds` | crates/policy-language/src/lib.rs:497-575 | two policies have one digest if and only if they make the same claims, under that condition, in whatever contexts they are compiled |
| `PolicyDecompiler.FromCommands` | crates/policy-language/src/expression.rs:153-225 | the loop over the mutable branch stack gives the expression or error of the recursive stack machine |
| `PolicyDecompiler.Apply` | crates/policy-language/src/expression.rs:163-213 | one command does to the stack exactly what the machine specifies: push, open a branch, or close as many as the PolicyOR lists |
| `PolicyDecompiler.PopBranches` | crates/policy-language/src/expression.rs:186-199 | popping n branches returns them oldest first, each closed into a term, and leaves the others alone |
| `PolicyDecompiler.AcceptsBalanced` | crates/policy-language/src/expression.rs:153-225 | a stream is accepted if and only if a depth counter never goes wrong: only the four commands, never more branches closed than opened, one left at the end; otherwise the error is the counter’s |
| `PolicyDecompiler.SkeletonPreserved` | crates/policy-language/src/expression.rs:153-225 | from any stack, the command skeleton of the result is the skeleton of the stack followed by the stream’s |
| `PolicyDecompiler.DecompiledSkeleton` | crates/policy-language/src/expression.rs:153-225 | the skeleton of an accepted stream’s expression is the stream’s own skeleton |
| `PolicyNormalForm.RebuildEmit` | crates/policy-language/src/expression.rs:153-225 | an emitted stream followed by anything pushes the flattened terms of its expression and goes on, at any stack depth |
| `PolicyNormalForm.RebuildEmitBranches` | crates/policy-language/src/expression.rs:153-225 | emitted branches open as many stack entries, each holding the flattened terms of its branch |
| `PolicyNormalForm.DecompileCompiled` | crates/policy-language/src/expression.rs:153-225 | decompiling a compiled policy gives its normal form: nested Ands flattened, one-term Ands unwrapped, PCR digests resolved |
| `PolicyNormalForm.NormCompilesAlike` | crates/policy-language/src/lib.rs:592-601 | the normal form compiles to the same commands and the same digest from any session |
| `PolicyNormalForm.DecompileExact` | crates/policy-language/src/expression.rs:153-225 | decompiling gives back the very expression compiled if and only if that expression was already normal |
| `PolicyNormalForm.NestedAndFlattened` | crates/policy-language/src/expression.rs:153-225 | a concrete nested And that comes back flat |
| `PolicyNormalForm.DecompiledNormal` | crates/policy-language/src/expression.rs:153-225 | every decompiled expression is normal |
| `PolicyNormalForm.DecompileStable` | crates/policy-language/src/expression.rs:153-258 | decompile, compile, decompile is decompile |
| `PolicyBoundForm.BoundFormOfNorm` | crates/policy-language/src/expression.rs:404-440 | what is kept of a policy, in each branch what stands after the last Or and that Or, is the same before and after normalizing |
| `PolicyBoundForm.DigestBindsForm` | crates/policy-language/src/expression.rs:245-258 | two policies compiled in one context have one digest if and only if their normal forms agree in what is kept, if the hash tells apart what is hashed and no two handles of the policies have one name |
| `PolicyBoundForm.LengthHashTellsApart` | crates/policy-language/src/lib.rs:549-575 | a concrete hash of one byte that meets the condition for two secrets |
| `PolicyBytes.BankDataJoin` | crates/policy-language/src/expression.rs:305-317 | the values of the registers listed follow one another in the order of the list |
| `PolicyBytes.BankDataOne` | crates/policy-language/src/expression.rs:305-317 | the value of one register is what the context holds for it, or the missing digest is reported |
| `PolicyBytes.SelectedIncreasing` | crates/policy-language/src/expression.rs:305-310 | the registers of a mask are listed in increasing order |
| `PolicyBytes.PcrDataJoin` | crates/policy-language/src/expression.rs:299-319 | the values of the banks follow one another in the order of the selection list |
| `PolicyBytes.PcrDataOne` | crates/policy-language/src/expression.rs:299-319 | one bank gives the values of its selected registers, in increasing order |
| `PolicyBytes.TwoBanks` | crates/policy-language/src/expression.rs:299-319 | registers 0 and 9 of the SHA-1 bank and 0 of the SHA-256 bank give their three values in this order |
| `PolicyBytes.PcrCommands` | crates/policy-language/src/expression.rs:286-341 | a PCR node without a digest claims exactly the hash of these values, one with a digest claims that, and each error is the one the code reports |
| `PolicyBytes.PcrBytesWritten` | crates/policy-language/src/lib.rs:497-506 | the selection hashed is the number of banks, then of each its algorithm, the size of its mask and the mask |
| `PolicyBytes.PcrUpdateBytes` | crates/policy-language/src/lib.rs:497-523 | the bytes PolicyPCR hashes on one bank, with command code, count and sizes as numbers |
| `PolicyBytes.SecretUpdateBytes` | crates/policy-language/src/lib.rs:549-575 | the bytes of the two hashes of PolicySecret, with the command code as a number |
| `PolicyBytes.OrUpdateBytes` | crates/policy-language/src/lib.rs:526-546 | the bytes PolicyOR hashes on two branches, with the command code as a number |
| `PolicyBytes.NamesOf` | crates/policy-language/src/expression.rs:362-387 | which handles have names: four hierarchies their own numbers, transient and persistent objects what the context says; which error for every other handle |
| `PolicyBytes.SecretCommands` | crates/policy-language/src/expression.rs:343-402 | the one command of a secret, with its policy reference or none, or the fault of its operand |
| `PolicyBytes.AndCommands` | crates/policy-language/src/expression.rs:268-277 | two terms: the commands of the first and then of the second, and the digest of the second taken from that of the first |
| `PolicyBytes.OrCommands` | crates/policy-language/src/expression.rs:404-440 | two branches: restart, the first, restart, the second, and a PolicyOR of their digests from zero |
| `PolicyBytes.BranchFault` | crates/policy-language/src/expression.rs:410-427 | the first branch that fails stops a disjunction with its error, and a ninth good branch with too many |
| `PolicyPcrText.ReadSelection` | crates/policy-language/src/lib.rs:152-184 | one `name:list` part is read, its bits set one by one in a zeroed mask, with the code’s errors in the code’s order |
| `PolicyPcrText.ReadSelections` | crates/policy-language/src/lib.rs:145-191 | the `+`-separated parts are read in order into a list of at most eight |
| `PolicyPcrText.SetRegistersOk` | crates/policy-language/src/lib.rs:171-181 | setting the listed registers succeeds if and only if each is below the PCR count |
| `PolicyPcrText.SetRegistersSelect` | crates/policy-language/src/lib.rs:171-181 | afterwards a register is selected if and only if it was listed or selected before |
| `PolicyPcrText.BitmapRoundTrip` | crates/policy-language/src/lib.rs:171-184 | listing the set bits of a mask and setting them in a zeroed one gives the mask back |
| `PolicyPcrText.SelectionRoundTrip` | crates/policy-language/src/expression.rs:66-95 | a printed selection reads back as itself, for each selection the reader can return |
| `PolicyPcrText.ParsedSelection` | crates/policy-language/src/lib.rs:152-184 | what the reader returns is such a selection |
| `PolicyPcrText.SelectionsRoundTrip` | crates/policy-language/src/lib.rs:145-191 | the same for the whole `+`-separated list |
| `PolicyPcrText.ParsedSelections` | crates/policy-language/src/lib.rs:145-191 | what the list reader returns can be read back |
| `PolicyPcrText.CutSelectionsFail` | crates/policy-language/src/lib.rs:380-398 | a printed selection list cut at its last colon never reads as a list, so text without a digest is never taken for text with one |
| `PolicyPcrText.HashNamesRead` | crates/crypto/src/hash.rs:18-52 | exactly the hash algorithms have a name, and each name reads back as its algorithm |
| `PolicyGrammar.HashNameTable` | crates/crypto/src/hash.rs:18-52 | the number of the algorithm that each of the ten names stands for |
| `PolicyGrammar.SelectionFaults` | crates/policy-language/src/lib.rs:152-170 | the error of a part without a colon, with an unknown name, with a bank the context lacks, with a number that does not read |
| `PolicyGrammar.NumbersRead` | crates/policy-language/src/lib.rs:171-176 | the register numbers are the values of the pieces between commas, and one piece that does not read spoils them all |
| `PolicyGrammar.DigestAfterColon` | crates/policy-language/src/lib.rs:380-398 | a digest is read after the last colon if it and the list before it read; otherwise the whole text is a list or has its error |
| `Text.DigitTable` | crates/policy-language/src/lib.rs:346-347 | a character is a digit of value n if and only if it stands at place n of one of the two digit tables, lower or upper case |
| `Text.OneDigit` | crates/policy-language/src/lib.rs:346-347 | one character reads as a number if and only if it is a digit below the radix |
| `Text.DigitsJoin` | crates/policy-language/src/lib.rs:346-347 | digits before others have the weight that the number of the others gives them |
| `Text.PlusSign` | crates/policy-language/src/lib.rs:346-347 | one plus sign before a number is passed over, a second one is not |
| `Text.HexPair` | crates/policy-language/src/lib.rs:438-440 | two characters are a byte if and only if the first is the digit of its high half and the second of its low half |
| `Text.HexJoin` | crates/policy-language/src/lib.rs:438-440 | pairs of digits are decoded one after the other |
| `Text.NoLeadingZero` | crates/policy-language/src/expression.rs:66-95 | a printed decimal number starts with zero only if it is zero |
| `PolicyParser.Lex` | crates/policy-language/src/lib.rs:216-248 | the scanning loop yields the token sequence of the recursive tokenizer |
| `PolicyParser.LexOne` | crates/policy-language/src/lib.rs:216-248 | one step moves forward and emits what the rest of the text starts with |
| `PolicyParser.EndOfWord` | crates/policy-language/src/lib.rs:232-243 | a word ends at the first blank, parenthesis or comma |
| `PolicyParser.TokenCursor.Peek` | crates/policy-language/src/lib.rs:250-297 | peeking shows the first remaining token and consumes nothing |
| `PolicyParser.TokenCursor.Next` | crates/policy-language/src/lib.rs:250-297 | taking a token removes exactly the first one |
| `PolicyParser.TokenCursor.ReadOr` | crates/policy-language/src/lib.rs:280-297 | the cursor loop returns the grammar’s expression or error, and on success stands exactly where the grammar stops |
| `PolicyParser.TokenCursor.ReadAnd` | crates/policy-language/src/lib.rs:299-316 | the same for a conjunction |
| `PolicyParser.TokenCursor.ReadPrimary` | crates/policy-language/src/lib.rs:318-339 | the same for a primary |
| `PolicyParser.TokenCursor.ReadPcrCall` | crates/policy-language/src/lib.rs:355-398 | the same for a PCR call, whose text is glued together again from tokens |
| `PolicyParser.TokenCursor.ReadSecretCall` | crates/policy-language/src/lib.rs:400-473 | the same for a secret call |
| `PolicyParser.TokenCursor.ReadSecretEnd` | crates/policy-language/src/lib.rs:413-473 | the same for what follows the secret’s operand: an optional copy_ref and the closing parenthesis |
| `PolicyParser.ParseExpression` | crates/policy-language/src/expression.rs:126-140 | the whole reader: the expression or error of the grammar, and every token must be consumed; what the grammar makes of literals, operators and malformed texts is told in PolicyGrammar |
| `PolicyGrammar.LiteralValue` | crates/policy-language/src/lib.rs:341-353 | eight digits of the table read as the handle they spell if the first two are one of the ten handle types, and are refused with that type otherwise; a plus sign may stand for a first zero |
| `PolicyGrammar.LiteralRefused` | crates/policy-language/src/lib.rs:341-347 | a text of another length, or with a character that is no digit, is no handle |
| `PolicyGrammar.CopyRefArgument` | crates/policy-language/src/lib.rs:417-456 | the argument of a secret is the key copy_ref, a colon and at most 64 bytes in hexadecimal; no bytes are no reference, all else is refused |
| `PolicyGrammar.PrecedenceReads` | crates/policy-language/src/lib.rs:250-316 | without parentheses a chain of operands is read as one Or of one And each: and binds tighter than or, and both keep their operands in order |
| `PolicyGrammar.AndBeforeOr` | crates/policy-language/src/lib.rs:250-316 | a and b or c is read as (a and b) or c |
| `PolicyGrammar.OrBeforeAnd` | crates/policy-language/src/lib.rs:250-316 | a or b and c is read as a or (b and c) |
| `PolicyGrammar.OperandExpected` | crates/policy-language/src/lib.rs:318-339 | the text that ends where an operand must stand, and the token that cannot start one |
| `PolicyGrammar.OperandFault` | crates/policy-language/src/lib.rs:257-339 | a fault of an operand is the fault of the text, after either operator and after a parenthesis |
| `PolicyGrammar.NotClosed` | crates/policy-language/src/lib.rs:325-331 | a parenthesis that is not closed after the expression it opened is a mismatch |
| `PolicyGrammar.Trailing` | crates/policy-language/src/expression.rs:126-140 | a text is read if and only if nothing follows the expression; otherwise trailing data is reported |
| `PolicyGrammar.CallNotOpened` | crates/policy-language/src/lib.rs:355-411 | the two calls without an opening parenthesis |
| `PolicyGrammar.PcrCallFaults` | crates/policy-language/src/lib.rs:369-379 | the text of a PCR call that does not end, or holds an operator or a parenthesis |
| `PolicyGrammar.SecretFaults` | crates/policy-language/src/lib.rs:400-472 | what is reported when the operand of a secret, its argument or its end is missing or wrong |
| `PolicyGrammar.PrintedPair` | crates/policy-language/src/expression.rs:107-114 | how a conjunction and a disjunction are written |
| `PolicyGrammar.PrintedSecret` | crates/policy-language/src/expression.rs:95-104 | how a secret is written, with and without a reference |
| `PolicyGrammar.PrintedPcr` | crates/policy-language/src/expression.rs:66-95 | how a PCR node is written, with and without a digest |
| `PolicyGrammar.SelectionText` | crates/policy-language/src/expression.rs:66-90 | how selections are written: banks between plus signs, a name, a colon, registers between commas |
| `PolicyGrammar.HandleText` | crates/policy-language/src/expression.rs:112-115 | a handle is written as its eight hexadecimal digits in lower case |
| `PolicyText.TokenizeAppend` | crates/policy-language/src/lib.rs:216-248 | tokenizing distributes over concatenation wherever no word runs across the seam |
| `PolicyText.PcrTextReads` | crates/policy-language/src/lib.rs:355-378 | any PCR text survives being cut into tokens and glued together again |
| `PolicyText.PcrBodyReads` | crates/policy-language/src/lib.rs:380-398 | printed PCR text reads back as the same selection list and the same optional digest: the two forms are never confused |
| `PolicyText.GroupChain` | crates/policy-language/src/lib.rs:257-316 | a group of operands joined by one operator folds back into one node with these operands, with no nesting of its own kind at the front |
| `PolicyText.PrintedReads` | crates/policy-language/src/expression.rs:63-116 | the tokens of a printed expression, before any rest, are read as that expression and leave that rest |
| `PolicyText.ParseOrParsable` | crates/policy-language/src/lib.rs:280-473 | whatever the parser returns has at least two terms in each And and Or, no first term of its own kind, and readable leaves |
| `PolicyText.PrintParse` | crates/policy-language/src/expression.rs:63-140 | printing then parsing gives the expression back if and only if it is one of these |
| `PolicyText.OneTermUnwraps` | crates/policy-language/src/expression.rs:63-140 | a one-term And or Or prints as a text that reads back as its term |
| `PolicyText.ParsePrintParse` | crates/policy-language/src/expression.rs:63-140 | for each accepted text, parse, print, parse is parse |
| `PolicyText.PrintInjective` | crates/policy-language/src/expression.rs:63-116 | no two parsable expressions print alike |
| `PolicyText.ParsableBranches` | crates/policy-language/src/lib.rs:280-297 | each Or of a parsed expression has at least two branches |
| `PolicyText.ParsedPolicyRuns` | crates/policy-language/src/expression.rs:126-258 | each text that parses and compiles gives a stream a TPM that checks membership and demands two branches runs to the returned digest |
| `WireWriter.TpmWriter.constructor` | crates/protocol/src/lib.rs:429-431 | a new writer over a buffer has nothing written |
| `WireWriter.TpmWriter.WriteBytes` | crates/protocol/src/lib.rs:457-480 | the bytes are appended if and only if they fit; otherwise an overflow is reported and nothing moves |
| `WireWriter.Marshal` | crates/protocol/src/macro/struct.rs:402-405 | marshalling a value writes its output after what was written, if it fits, and reports exactly the error that stops it; an output that does not fit is reported as an overflow |
| `WireWriter.MarshalBuffer` | crates/protocol/src/basic/buffer.rs:355-358 | size then bytes, or an overflow |
| `WireWriter.MarshalSized` | crates/protocol/src/macro/struct.rs:607-616 | the length check comes first, then the length prefix and the inner structure |
| `WireWriter.MarshalTagged` | crates/protocol/src/data/tpmt.rs:37-47 | the variants are checked against the tag before anything is written, then tag and variants; a Null symmetric definition is not checked and writes its tag alone |
| `WireWriter.MarshalList` | crates/protocol/src/basic/list.rs:472-481 | count then items, stopped where the first item is |
| `WireWriter.MarshalEach` | crates/protocol/src/basic/list.rs:476-480 | the item loop writes the outputs one after the other, up to the first that is stopped |
| `WireOutput.OutputEncodes` | crates/protocol/src/macro/struct.rs:402-405 | the output of marshalling is the encoding, or is stopped by the error that encoding reports, for every schema |
| `WireOutput.OutputLength` | crates/protocol/src/macro/struct.rs:395-398 | no output is longer than the length the value reports, stopped or not: a buffer of that length never overflows |
| `WireCodec.EncodedMatches` | crates/protocol/src/data/tpmu.rs:65-76 | whatever encodes under a tag matches it |
| `WireWriter.ValidatePrefixItems` | crates/protocol/src/basic/list.rs:215-239 | the list validator’s moving cursor returns what the specification consumes |
| `WireWriter.SkipItems` | crates/protocol/src/basic/list.rs:223-236 | its loop over the items, with this item’s validator |
| `WireWriter.SkipEach` | crates/protocol/src/basic/list.rs:223-236 | the same loop for any item validator |
| `WireCodec.EncodeLength` | crates/protocol/src/macro/struct.rs:395-398 | the length a value reports is the length of its encoding |
| `WireCodec.LengthBound` | crates/protocol/src/lib.rs:483-488 | no value is longer than the maximum computed for its type, for every schema |
| `WireTypes.DeclaredSizes` | crates/protocol/src/macro/struct.rs:393-395 | the sizes declared for the schemes, the public area and its two unions, hash values, signatures, the saved context, both session structures and PCR selections are no less than that maximum; for the last four the two are equal |
| `WireTheorems.DecodeEncode` | crates/protocol/src/macro/struct.rs:393-422 | decoding an encoded value followed by any bytes gives the value, canonical, and exactly these bytes, for every schema: nested lists, sized structures, tag-selected unions |
| `WireTheorems.DecodeEncodeSized` | crates/protocol/src/macro/struct.rs:603-652 | the same for a sized structure: the inner decoder uses up the whole size |
| `WireTheorems.DecodeEncodeItems` | crates/protocol/src/basic/list.rs:471-510 | the same for the items of a list |
| `WireTheorems.DecodeEncodeExact` | crates/protocol/src/data/tpmt.rs:315-334 | the very value comes back if and only if it hides no details behind a Null tag |
| `WireTheorems.EncodeDecode` | crates/protocol/src/macro/struct.rs:413-422 | re-encoding any decoded value gives exactly the bytes consumed |
| `WireTheorems.EncodeDecodeItems` | crates/protocol/src/basic/list.rs:485-510 | the same for list items |
| `WireTheorems.EncodeInjective` | crates/protocol/src/macro/struct.rs:393-422 | two values with one encoding are equal up to hidden details |
| `WireTheorems.EncodeCanon` | crates/protocol/src/data/tpmt.rs:315-334 | the canonical value encodes the same and is its own canonical form |
| `WireTheorems.ValidateAgrees` | crates/protocol/src/macro/struct.rs:351-371 | the borrowed validator accepts exactly the inputs the owned decoder accepts, consumes the same bytes and stays inside the input, for every schema |
| `WireTheorems.ValidateListAgrees` | crates/protocol/src/basic/list.rs:215-239 | the same for lists, at every item boundary |
| `WireTheorems.ValidateSizedAgrees` | crates/protocol/src/macro/struct.rs:549-576 | the same for sized structures, which check by slicing instead |
| `WireTheorems.ValidateTaggedAgrees` | crates/protocol/src/data/tpmt.rs:60-89 | the same for tagged structures and their unions |
| `WireTypes.PublicWellFormed` | crates/protocol/src/data/tpmt.rs:94-157 | the public area is an instance of the schema interpreter, and at most 700 bytes long; its layout is that of WireLayouts |
| `WireTypes.StructuresWellFormed` | crates/protocol/src/data/tpms.rs:168-238 | so are the saved context and both session structures |
| `WireTypes.PolicyStepsFit` | crates/vtpm/src/policy.rs:500-519 | the parameters of the two stored policy commands always fit the buffer they are marshalled into |
| `WireInstances.PublicRoundTrip` | crates/protocol/src/data/tpmt.rs:94-157 | the round trip of the public area, whose bytes WireLayouts gives field by field, with the exact condition for the very value |
| `WireInstances.PublicReproduced` | crates/protocol/src/data/tpmt.rs:135-157 | decoding then encoding a public area reproduces its bytes |
| `WireInstances.ContextRoundTrip` | crates/protocol/src/data/tpms.rs:228-237 | the saved-context round trip |
| `WireInstances.AuthCommandRoundTrip` | crates/protocol/src/data/tpms.rs:168-177 | the command-session round trip |
| `WireInstances.HiddenDetailsLost` | crates/protocol/src/data/tpmt.rs:315-350 | a concrete Null definition with AES-sized details: it is well typed, its details are not written, and it reads back without them |
| `WireLayouts.RsaPublicBytes` | crates/protocol/src/data/tpms.rs:650-658 | the bytes of an RSA public area: type, name algorithm, attributes, sized policy, symmetric definition, scheme, two bytes of key size, four of exponent, sized modulus |
| `WireLayouts.EccPublicBytes` | crates/protocol/src/data/tpms.rs:660-669 | the bytes of an elliptic curve public area: after the common fields symmetric definition, scheme, curve, key derivation, and two sized coordinates |
| `WireLayouts.KeyedhashPublicBytes` | crates/protocol/src/data/tpms.rs:268-274 | the bytes of a keyed-hash public area |
| `WireLayouts.SymcipherPublicBytes` | crates/protocol/src/data/tpms.rs:358-364 | the bytes of a symmetric cipher public area |
| `WireLayouts.NullPublicBytes` | crates/protocol/src/data/tpmt.rs:94-157 | the bytes of a null public area |
| `WireLayouts.NoOtherTag` | crates/protocol/src/data/tpmu.rs:380-425 | exactly which tags select a variant: object types, symmetric algorithms, schemes, key derivations, signatures |
| `WireLayouts.SymDefBytes` | crates/protocol/src/data/tpmt.rs:298-350 | a symmetric definition is its algorithm alone if null, and algorithm, key size and mode for a cipher |
| `WireLayouts.AsymSchemeBytes` | crates/protocol/src/data/tpmt.rs:500-534 | a scheme is its number, followed by a hash for all but null and RSAES |
| `WireLayouts.RsaSignatureBytes` | crates/protocol/src/data/tpms.rs:394-400 | the bytes of an RSA signature: scheme, hash, sized signature |
| `WireLayouts.EccSignatureBytes` | crates/protocol/src/data/tpms.rs:402-410 | the bytes of an elliptic curve signature: scheme, hash, two sized numbers |
| `WireLayouts.ContextBytes` | crates/protocol/src/data/tpms.rs:228-237 | the bytes of a saved context: eight of sequence, four of handle, four of hierarchy, sized blob |
| `WireLayouts.SessionBytes` | crates/protocol/src/data/tpms.rs:168-185 | the bytes of a command session: handle, sized nonce, attributes, sized HMAC; and of a response session, without the handle |
| `WireLayouts.RsaLiteral` | crates/protocol/src/data/tpms.rs:650-658 | one RSA-2048 area with the default exponent, every byte as a number |
| `WireLayouts.SessionLiteral` | crates/protocol/src/data/tpms.rs:168-177 | one command session, every byte as a number |
| `WireFaults.AlgorithmTable` | crates/protocol/src/data/enum/mod.rs:12-74 | exactly the 59 numbers of the list are algorithms |
| `WireFaults.CommandTable` | crates/protocol/src/data/enum/mod.rs:108-238 | exactly the 126 numbers of the list are command codes |
| `WireFaults.Truncated` | crates/protocol/src/macro/struct.rs:351-371 | a buffer too short for the next number, count, size or tag is refused as ending too early |
| `WireFaults.NoSuchNumber` | crates/protocol/src/macro/struct.rs:351-371 | a number or tag outside its enumeration, and a boolean above one, each with its error |
| `WireFaults.NoSuchVariant` | crates/protocol/src/data/tpmt.rs:60-89 | a tag of the enumeration that selects no variant is refused |
| `WireFaults.TooLarge` | crates/protocol/src/basic/buffer.rs:156-190 | a size or count above its capacity, and a buffer shorter than its size, each with its error |
| `WireFaults.SizedTrailing` | crates/protocol/src/macro/struct.rs:549-576 | a sized structure that ends before its size does is refused |
| `FrameMarshal.MarshalCommand` | crates/protocol/src/frame/marshal.rs:91-165 | exactly the specified frame is written if it fits: header, handles, sized auth area under the sessions tag, parameters; a failure reports exactly the check, field or overflow that stopped it |
| `FrameMarshal.MarshalAuthArea` | crates/protocol/src/frame/marshal.rs:141-160 | the auth area is its length and its sessions, present only under the sessions tag, with the error that stops it |
| `FrameMarshal.MarshalResponse` | crates/protocol/src/frame/marshal.rs:172-254 | exactly the specified response if it fits: a bare header on error, else handles, a parameter size when sessions follow, parameters, sessions; a failure reports exactly what stopped it |
| `FrameMarshal.CommandEncodes` | crates/protocol/src/frame/marshal.rs:91-165 | the output of the command marshaller is the frame of the frame theorems, or is stopped by the same error |
| `FrameMarshal.ResponseEncodes` | crates/protocol/src/frame/marshal.rs:172-254 | the same for responses |
| `FrameMarshal.ValidateAuthArea` | crates/protocol/src/frame/wire.rs:820-887 | the session loop with its moving buffer and counter accepts what the recursive check accepts |
| `FrameTheorems.HeaderFields` | crates/protocol/src/frame/wire.rs:101-125 | tag, size and code read back from any header, before any body |
| `FrameTheorems.CutLayout` | crates/protocol/src/frame/wire.rs:254-320 | a frame laid out from handles, sessions and parameters is cut back into these three |
| `FrameTheorems.AreasTile` | crates/protocol/src/frame/wire.rs:254-320 | for any accepted frame the header, areas and length field put together are the frame: nothing overlaps, nothing is lost |
| `FrameTheorems.SessionsExactly` | crates/protocol/src/frame/wire.rs:820-915 | the auth check accepts an area if and only if it is the encoding of at most eight sessions |
| `FrameTheorems.CommandValidates` | crates/protocol/src/frame/wire.rs:235-376 | a marshalled command’s size field is its length, it passes cast and validate, and its areas are the encodings of its handles, sessions and parameters |
| `FrameTheorems.CommandRoundTrip` | crates/protocol/src/frame/wire.rs:217-232 | it unmarshals to the handles and the parameters marshalled, up to details hidden behind a Null tag, with and without sessions; to the very parameters if and only if they hide no details |
| `FrameTheorems.ResponseRoundTrip` | crates/protocol/src/frame/wire.rs:552-660 | the same for success responses, with and without sessions, which also validate and carry their own size |
| `FrameTheorems.ErrorResponse` | crates/protocol/src/frame/wire.rs:552-622 | an error response is a bare header that validates with its code; it unmarshals only to a body that is empty |
| `FrameReproduction.ReadsAsExactly` | crates/protocol/src/frame/wire.rs:820-887 | an area decodes to its end as marshallable sessions if and only if it is the encoding of some |
| `FrameReproduction.SessionsCounted` | crates/protocol/src/frame/wire.rs:820-852 | an area that validates holds at most eight sessions |
| `FrameReproduction.BodyReproduces` | crates/protocol/src/frame/wire.rs:217-232 | encoding the handles and parameters of an unmarshalled body gives the bytes of the two areas |
| `FrameReproduction.CommandReproduces` | crates/protocol/src/frame/marshal.rs:91-165 | an unmarshalled command marshals to the very frame it came from, for some tag and sessions, if and only if a sessions tag goes with a non-empty area of marshallable sessions |
| `FrameReproduction.ResponseReproduces` | crates/protocol/src/frame/marshal.rs:172-254 | the same for responses, error responses included: only a success with a sessions tag has the condition, on the sessions at its end |
| `FrameReproduction.SessionlessNotMarshalled` | crates/protocol/src/frame/wire.rs:820-852 | a concrete frame with a sessions tag and an empty authorization area: it unmarshals, and no tag and sessions marshal to it |
| `FrameLayouts.PlainCommand` | crates/protocol/src/frame/marshal.rs:91-165 | one command without sessions, every byte as a number |
| `FrameLayouts.SessionCommand` | crates/protocol/src/frame/marshal.rs:91-165 | one command with a session: the size of the authorization area and the session stand between handles and parameters |
| `FrameLayouts.SessionResponse` | crates/protocol/src/frame/marshal.rs:172-254 | one response with a session: the size of the parameters stands before them, the session behind them |
| `FrameLayouts.ErrorFrame` | crates/protocol/src/frame/marshal.rs:172-254 | one error response, every byte as a number |
| `FrameLayouts.NinthSession` | crates/protocol/src/frame/marshal.rs:91-254 | eight sessions are marshalled, and nine are too many, for any body |
| `FrameLayouts.TagsRefused` | crates/protocol/src/frame/marshal.rs:91-254 | which tags and codes go with sessions and which without; the others are refused |
| `FrameLayouts.HeaderRefused` | crates/protocol/src/frame/wire.rs:101-190 | a frame longer or shorter than it says, with another tag or an unknown code: which error, and in which order |
| `FrameLayouts.CutShort` | crates/protocol/src/frame/wire.rs:254-320 | where the areas of any frame lie, and that a frame too short for its handles or its counted area is refused |
| `FrameLayouts.ResponseRefused` | crates/protocol/src/frame/wire.rs:552-622 | an error response validates if and only if it is a bare header without a sessions tag; the errors of the others |
| `VtpmPolicyList.MarshalPolicyList` | crates/vtpm/src/policy.rs:266-282 | the count and the parts are written if they fit; a failure reports exactly what stopped it |
| `VtpmPolicyList.MarshalParts` | crates/vtpm/src/policy.rs:271-280 | the loop over the parts, up to the first that is stopped |
| `VtpmPolicyList.MarshalPart` | crates/vtpm/src/policy.rs:272-279 | one part: command code, body length, body; a body too long is found out after the code is written |
| `VtpmPolicyList.ListEncodes` | crates/vtpm/src/policy.rs:266-282 | the output of the list marshaller is the list of the round trips, or is stopped by the same error |
| `VtpmPolicyList.UnmarshalPolicyList` | crates/vtpm/src/policy.rs:288-316 | the loop over the shrinking tail reads what the recursive reader reads, stopping at the first error and at more than sixteen |
| `VtpmPolicyList.StepsRoundTrip` | crates/vtpm/src/policy.rs:288-316 | written parts followed by anything load if and only if each one does, and load as themselves |
| `VtpmPolicyList.StepsReproduce` | crates/vtpm/src/policy.rs:288-316 | writing what was loaded reproduces the bytes read |
| `VtpmPolicyList.ListRoundTrip` | crates/vtpm/src/policy.rs:266-316 | a written list loads if and only if it has at most sixteen parts and each one loads |
| `VtpmPolicyList.ListReproduce` | crates/vtpm/src/policy.rs:266-316 | writing a loaded list reproduces its bytes |
| `VtpmPolicy.FromPartsInverse` | crates/vtpm/src/policy.rs:91-200 | a step built from a code and body gives back that code and body |
| `VtpmPolicy.StepLenExact` | crates/vtpm/src/policy.rs:334-336 | a step’s length never falls short of its written part, and is exact whenever its parameters marshal |
| `VtpmPolicy.StepReadable` | crates/vtpm/src/policy.rs:91-200 | the loader accepts a stored step if and only if its structure marshals, or, for an uninterpreted one, its code is supported and its body decodes to the end |
| `VtpmRecord.WriteRecord` | crates/vtpm/src/lib.rs:167-193 | the result is the record or exactly the error that makes it impossible: the reserved buffer never overflows |
| `VtpmRecord.ReadRecord` | crates/vtpm/src/lib.rs:108-150 | what the loader returns for any bytes, error by error |
| `VtpmRecord.RecordLength` | crates/vtpm/src/lib.rs:153-165 | the computed record length bounds the record, and is exact when every step marshals |
| `VtpmRecord.RecordRoundTrip` | crates/vtpm/src/lib.rs:108-193 | a saved record loads if and only if it is within 16 KiB, has at most sixteen steps and each one is readable (its structure marshals, or its code is supported and its body decodes to the end); it then loads as the same key |
| `VtpmRecord.RecordReproduces` | crates/vtpm/src/lib.rs:108-193 | saving a loaded record reproduces its bytes |
| `VtpmBytes.RecordParts` | crates/vtpm/src/lib.rs:167-193 | a record is version, handle, public area, parent area, context, number of steps and steps, in this order |
| `VtpmBytes.StepsLayout` | crates/vtpm/src/policy.rs:266-282 | each step adds its command code, the size of its parameters and the parameters |
| `VtpmBytes.RecordRefused` | crates/vtpm/src/lib.rs:108-135 | a record above 16384 bytes, of another version or of another handle: which error, and in which order |
| `VtpmBytes.ListRefused` | crates/vtpm/src/policy.rs:288-297 | a list cut short, and one of more than sixteen steps |
| `VtpmBytes.StepRefused` | crates/vtpm/src/policy.rs:298-312 | a step with an unknown code, and one cut short in each of its parts |
| `VtpmBytes.StepTable` | crates/vtpm/src/policy.rs:91-200 | exactly which commands a record may hold, by number, and which parameters each one has |
| `VtpmBytes.PersistentContextBytes` | crates/vtpm/src/lib.rs:608-616 | the context that a persistent key is saved with, every byte as a number |
| `VtpmStore.FreeSlotNearest` | crates/vtpm/src/lib.rs:547-569 | the scan returns the free slot nearest to the cursor in circular order |
| `VtpmStore.NoFreeSlot` | crates/vtpm/src/lib.rs:547-569 | it finds none if and only if all 2^24 transient slots are taken |
| `VtpmStore.FreeSlotIsNearest` | crates/vtpm/src/lib.rs:549-556 | the slot found is free and fewest steps round the transient range from the cursor; none is found if and only if none is free |
| `VtpmStore.InsertSaved` | crates/vtpm/src/lib.rs:366-385 | saving puts the very key under its handle, marks it, leads its name to it, takes the old name of the handle away from it, and changes nothing else |
| `VtpmStore.InsertKeeps` | crates/vtpm/src/lib.rs:540-630 | saving a key keeps the invariant: keys in place, reverse index complete, transient name entries live, clean contexts on disk, no stray records, cursor in range |
| `VtpmStore.EvictKeeps` | crates/vtpm/src/lib.rs:490-510 | so does removing one context |
| `VtpmStore.EvictAllKeeps` | crates/vtpm/src/lib.rs:718-761 | so does removing any list of distinct contexts |
| `VtpmStore.WriteOutKeeps` | crates/vtpm/src/lib.rs:699-716 | so does writing one record out |
| `VtpmStore.DropMarkKeeps` | crates/vtpm/src/lib.rs:699-716 | so does dropping the mark of a handle that has no context |
| `VtpmStore.EvictAllShape` | crates/vtpm/src/lib.rs:718-761 | exactly the removed handles leave the contexts, reverse index, files and dirty marks; nothing else changes |
| `VtpmStore.EvictAllIndex` | crates/vtpm/src/lib.rs:378-386 | a name stays mapped, to the same handle, unless that handle was removed and had published it |
| `VtpmStore.DistinctPositions` | crates/vtpm/src/lib.rs:718-761 | a list of removals without repetition names each context once |
| `VtpmLinks.DescendsChild` | crates/vtpm/src/lib.rs:718-733 | what descends from the root passes this on to its children |
| `VtpmLinks.ClosedHoldsDescendants` | crates/vtpm/src/lib.rs:735-758 | a set holding the root and closed under children holds every descendant, cycles included |
| `VtpmLinks.StayingHasParent` | crates/vtpm/src/lib.rs:427-510 | after a removal, whole or part, a key that stays has a parent if and only if it needs none, a cached parent of it stays, or the name of its parent was published and did not go with a removed key |
| `VtpmLinks.RemovalResolves` | crates/vtpm/src/lib.rs:427-510 | so after any removal every key can be followed up to a root if and only if no key that stays is orphaned in this way; nothing is asked of names or links |
| `VtpmLinks.SubtreeOrphans` | crates/vtpm/src/lib.rs:718-761 | removing a whole subtree orphans exactly the keys that hang from it by a name alone: no cached parent, and the key their parent’s name leads to is removed |
| `VtpmLinks.HangingCollides` | crates/vtpm/src/lib.rs:427-510 | a key hangs by a name alone only where two different public areas in the cache have one name |
| `VtpmLinks.RemovalKeepsParents` | crates/vtpm/src/lib.rs:427-510 | if each key’s parent could be found before removing a subtree, each survivor’s still can if and only if none hangs by a name alone, and so always where no two cached areas share a name |
| `VtpmLinks.ClimbSurvives` | crates/vtpm/src/lib.rs:718-761 | every way up from a survivor of a subtree’s removal survives as a whole |
| `VtpmLinks.RemovalKeepsResolvable` | crates/vtpm/src/lib.rs:427-510 | a survivor whose own ancestors could be followed to a root still has such ancestors if and only if none of its topmost ones hangs by a name alone, whatever the rest of the cache holds |
| `VtpmLinks.PartialKeepsResolvable` | crates/vtpm/src/lib.rs:427-510 | after any removal, whole or part, and on any links: a key can be followed to a root if and only if its ways up that met no removed key end, and end at no orphan |
| `VtpmLinks.ClimbsBounded` | crates/vtpm/src/lib.rs:440-470 | the ways up from a key through cached parents are bounded in length if and only if none of them meets a key twice |
| `VtpmLinks.OneWayUp` | crates/vtpm/src/lib.rs:446-456 | where no key has two cached parents there is one way up from a key |
| `VtpmLinks.OneRootEnough` | crates/vtpm/src/lib.rs:427-481 | so if it ends at a root, every way up does |
| `VtpmNames.FindableEvict` | crates/vtpm/src/lib.rs:378-400 | removing a key hides another live key if and only if its name leads to it and another live key shares the name |
| `VtpmNames.FindableEvictAll` | crates/vtpm/src/lib.rs:378-400 | removing several keys hides none if and only if each survivor’s name leads to a survivor |
| `VtpmNames.FindableInsert` | crates/vtpm/src/lib.rs:366-400 | saving a key hides another if and only if it gives a new name to a handle that shares its old one and that the old name leads to |
| `VtpmNames.AgreesInsert` | crates/vtpm/src/lib.rs:366-386 | saving a key keeps the index truthful if and only if no supplied entry gives its handle another name |
| `VtpmNames.IndexedFinds` | crates/vtpm/src/lib.rs:322-400 | a newly opened cache finds every key by its name; its index is truthful if and only if each supplied entry whose handle has a key leads to a key of that name |
| `VtpmCache.Disk.Replace` | crates/vtpm/src/lib.rs:56-80 | a write replaces one record wholly or leaves the directory as it was; it cannot fail on a reliable directory |
| `VtpmCache.Disk.Delete` | crates/vtpm/src/lib.rs:195-204 | a deletion removes one record or leaves the directory as it was; it cannot fail on a reliable directory |
| `VtpmCache.Cache.constructor` | crates/vtpm/src/lib.rs:322-343 | an unloaded cache over a directory |
| `VtpmCache.Cache.UnpublishName` | crates/vtpm/src/lib.rs:378-386 | a handle’s name goes, and its index entry only if it still points at this handle |
| `VtpmCache.Cache.PublishName` | crates/vtpm/src/lib.rs:366-370 | the handle’s old name goes and the new one points at it |
| `VtpmCache.Cache.FindByName` | crates/vtpm/src/lib.rs:392-400 | the name of a live key finds a key of that name if and only if it is in the index, which it is in every findable state; what any other name finds has that name if its handle is transient or the supplied entries agree |
| `VtpmCache.Cache.SaveTransient` | crates/vtpm/src/lib.rs:540-583 | on success the very key given is cached under the free slot nearest to the cursor, its name leads to it, it is marked, the cursor stands behind it, and nothing else changes; no slot is reported if and only if all are taken; a failure changes nothing; the invariant stays |
| `VtpmCache.Cache.FindFree` | crates/vtpm/src/lib.rs:547-569 | the wrap-around loop finds the specified slot |
| `VtpmCache.Cache.SavePersistent` | crates/vtpm/src/lib.rs:597-630 | the same at a given handle, with an empty context and the cursor as it was; a handle outside the persistent range and a key without a name are refused, each with its error |
| `VtpmCache.Cache.MarkDirty` | crates/vtpm/src/lib.rs:633-635 | only the mark is added |
| `VtpmCache.Cache.Flush` | crates/vtpm/src/lib.rs:517-519 | the invariant stays on every path, error paths included; exactly some dirty keys are written out, and all of them on success; with a reliable directory and keys that marshal it succeeds |
| `VtpmCache.Cache.SaveAll` | crates/vtpm/src/lib.rs:699-716 | the loop writes the dirty keys in an arbitrary order and stops at the first failure |
| `VtpmCache.Cache.SaveOne` | crates/vtpm/src/lib.rs:703-712 | a failure changes nothing, and is the marshalling error or an I/O error; a success stores the exact record and drops the mark |
| `VtpmCache.FlushedKeeps` | crates/vtpm/src/lib.rs:699-716 | any partial flush keeps the invariant |
| `VtpmCache.Cache.Open` | crates/vtpm/src/lib.rs:322-356 | a new cache has the invariant and exactly the contexts whose records load; it is refused if and only if a supplied handle is not persistent (before the disk is touched) or some loadable key has no name; only unusable records and stale sessions leave the directory, and on a reliable one all of them do; every key is found by its name, and the index is truthful if and only if the supplied entries fit the keys loaded |
| `VtpmCache.Cache.Settle` | crates/vtpm/src/lib.rs:344-356 | the last step of opening: the cursor is placed, the index stays as loading left it |
| `VtpmCache.Cache.PlaceCursor` | crates/vtpm/src/lib.rs:344-353 | the cursor goes past the highest transient handle, or wraps |
| `VtpmCache.Cache.Load` | crates/vtpm/src/lib.rs:644-697 | loading in any directory order gives exactly the contexts whose records load; it fails if and only if one of them has no name; on a reliable directory no session file stays |
| `VtpmCache.Cache.LoadOne` | crates/vtpm/src/lib.rs:650-694 | one entry: kept with its name; or, if it does not load, deleted if that works; or deleted as a stale session, for certain on a reliable directory |
| `VtpmCache.LoadStep` | crates/vtpm/src/lib.rs:650-694 | each such step, whether it gains a key or not, keeps the loading invariant |
| `VtpmCache.LoadEnds` | crates/vtpm/src/lib.rs:644-697 | when every entry is done the store invariant holds |
| `VtpmCache.Cache.FetchAncestors` | crates/vtpm/src/lib.rs:427-481 | whenever every way up from the target ends: a supplied persistent handle is fetched alone, cached or not; any other that is not cached is not found; a success is a linked path from a root to the target; a failure names the ancestor whose parent cannot be found and why; a target all of whose ancestors have parents is fetched, and where no key has two cached parents no other is |
| `VtpmCache.Cache.EvictOne` | crates/vtpm/src/lib.rs:499-508 | a context goes with its file, mark and name; if its file stays, everything stays; on a reliable directory it goes |
| `VtpmCache.Cache.IndexChildren` | crates/vtpm/src/lib.rs:719-733 | the child index files every context under its parent’s public bytes, and is built whenever these marshal |
| `VtpmCache.Cache.Remove` | crates/vtpm/src/lib.rs:490-510 | on success exactly the target and everything reachable from it by parent links goes, each once, after its parent, and with file, mark and name; on a failure part of that subtree has gone and the rest is untouched, and the error is that of a deletion or, the target gone, of marshalling a link; the invariant stays, cycles do not matter, and on a reliable directory with marshallable keys it succeeds |
| `VtpmCache.Cache.RemoveSubtree` | crates/vtpm/src/lib.rs:718-761 | the same below an already removed root |
| `VtpmCache.Cache.RemoveLevels` | crates/vtpm/src/lib.rs:735-758 | the worklist loop terminates on any links, cyclic ones included, and leaves no descendant |
| `VtpmCache.Cache.RemoveRound` | crates/vtpm/src/lib.rs:736-757 | one round takes the head of the queue, removes its live children, queues them, and leaves fewer contexts and queue entries together |
| `VtpmCache.Cache.RemoveChildren` | crates/vtpm/src/lib.rs:742-756 | the live children are removed in order, stopping at the first failed deletion |
| `VtpmCache.ProgressStep` | crates/vtpm/src/lib.rs:736-757 | what a round removes descends from the root, and its parent has no live child left |
| `VtpmCache.WholeSubtree` | crates/vtpm/src/lib.rs:735-758 | when the queue is empty the removed contexts are the whole subtree |
| `VtpmRuns.StepKeeps` | crates/vtpm/src/lib.rs:490-635 | each operation of the cache, on each path, keeps the invariant |
| `VtpmRuns.RunKeeps` | crates/vtpm/src/lib.rs:490-635 | so it holds in every state of every run |
| `VtpmRuns.RemoveSparesOthers` | crates/vtpm/src/lib.rs:378-386 | a removal never drops a name that points at a survivor, even where a removed context shares it |
| `VtpmRuns.StepAgrees` | crates/vtpm/src/lib.rs:366-386 | after an operation the index is truthful if and only if the operation saved no key at a handle to which a supplied entry gives another name |
| `VtpmRuns.RunAgrees` | crates/vtpm/src/lib.rs:366-386 | the index is truthful in every state of a run if and only if every operation of the run is such a one |
| `VtpmRuns.StepFindable` | crates/vtpm/src/lib.rs:366-400 | after an operation every live key is found by its name if and only if the operation hid none |
| `VtpmRuns.RunFindable` | crates/vtpm/src/lib.rs:366-400 | every live key is found in every state of a run if and only if no operation of the run hides one |
| `VtpmWitnesses.SharedNameHidden` | crates/vtpm/src/lib.rs:378-400 | a concrete run: two keys with one public area are saved and the second is removed; the first is live and its name finds nothing |
| `VtpmWitnesses.SuppliedNameWrong` | crates/vtpm/src/lib.rs:366-400 | a concrete run: a name is supplied for a persistent handle and a key of another name is saved there; the name finds the wrong key |
| `VtpmWitnesses.SelfParentNeverEnds` | crates/vtpm/src/lib.rs:440-470 | a concrete run: a key is saved with its own public area as parent; no bound holds for the way up from it |
| `VtpmWitnesses.FailedRemovalOrphans` | crates/vtpm/src/lib.rs:490-510 | a concrete run: a key and its child are saved, and removing the key fails at the child; the child stays, with a parent that is neither cached nor published |
| `VtpmWitnesses.CollisionOrphans` | crates/vtpm/src/lib.rs:427-510 | a concrete run, under a digest with one value: a whole subtree is removed, and takes with it the name that a key outside it hangs by |
| `VtpmWitnesses.NamelessKeyLoads` | crates/vtpm/src/lib.rs:644-670 | a concrete record that loads and whose key has no name: its name algorithm is not a hash |
| `VtpmWitnesses.NamelessKeyRefused` | crates/vtpm/src/lib.rs:322-356 | opening a cache on a directory that holds just this record fails |
| `VtpmRuns.RestartLoads` | crates/vtpm/src/lib.rs:644-716 | after a full flush a handle is loaded if and only if it was live and its record loads, and as that record |
| `VtpmRuns.RestartComplete` | crates/vtpm/src/lib.rs:644-716 | nothing is missing if and only if each record is within the loader’s limits |
| `VtpmRestart.EnvLawful` | crates/vtpm/src/lib.rs:108-193 | the real record codec and naming satisfy what the cache theorems assume |
| `VtpmRestart.NamesMarshal` | crates/crypto/src/lib.rs:91-117 | whatever has a name marshals |
| `VtpmBytes.NameParts` | crates/crypto/src/lib.rs:91-117 | a name exists if and only if the area marshals and is named with one of ten hashes; its first two bytes are that algorithm, as in the area, and the rest is the hash of the whole area |
| `VtpmRestart.NamesCollisionFree` | crates/crypto/src/lib.rs:91-117 | where the digest tells the cached areas apart, no two of them share a name |
| `VtpmRestart.RemovalOnKeys` | crates/vtpm/src/lib.rs:427-510 | the removal theorem on real records and names: every survivor can be followed to a root if and only if none hangs by a name alone, and so wherever the digest tells the finitely many cached areas apart |
| `VtpmRestart.SameKeySameName` | crates/crypto/src/lib.rs:91-117 | a reloaded key has the same name and the same links |
| `VtpmRestart.RestartSame` | crates/vtpm/src/lib.rs:108-193 | after a full flush exactly the keys within the limits come back, each the same |
| `VtpmRestart.FlushedNamed` | crates/vtpm/src/lib.rs:644-670 | after a full flush no record is one that a new cache could not name |
| `VtpmRestart.Reopen` | crates/vtpm/src/lib.rs:322-356 | flushing a real cache and opening a new one on its directory restores exactly the keys within the limits; on a reliable directory, with keys that marshal and persistent supplied handles, nothing makes it fail |
| `VtpmRestart.CrowdedKeyLost` | crates/vtpm/src/policy.rs:285-296 | a concrete key with seventeen policy steps: it saves, and does not load |
| `PcrReader.ReadAllPcrs` | crates/sh/src/pcr.rs:26-80 | whenever reading ends, the banks or the first error, of the device or of an answer, as the round-by-round specification gives them; too many banks are refused |
| `PcrReader.AllReadInTime` | crates/sh/src/pcr.rs:26-80 | a device that answers whatever reading can ask it for with a non-empty truthful part of it is read in at most one round for each selected register, and exactly the selected registers of each bank come out, with the device’s values; nothing is asked about other requests |
| `PcrReader.BytewiseRead` | crates/sh/src/pcr.rs:26-80 | a concrete such device, whose answers hold eight values at most: it meets these conditions for any banks, mask and values, and is read |
| `PcrReader.HonestReads` | crates/sh/src/pcr.rs:43-80 | from a device that answers what reading can ask it for truthfully, or fails, reading that ends brings exactly that, or the device’s own failure |
| `PcrReader.ProgressEnds` | crates/sh/src/pcr.rs:43-80 | reading ends within one round for each register asked for if every storable answer to a request that it can make leaves less to ask for, failures included |
| `PcrReader.AsksRemaining` | crates/sh/src/pcr.rs:88-117 | what is still to be read is again such a request: the same banks in order, and registers of the mask |
| `PcrReader.InTimeOrNever` | crates/sh/src/pcr.rs:43-80 | a device whose answers depend on the request alone, and that is read at all, is read within one round for each register asked for |
| `PcrReader.EndsUnlessStuck` | crates/sh/src/pcr.rs:43-117 | reading from such a device ends if and only if no request that it reaches has an answer that can be stored and covers nothing of it |
| `PcrReader.EmptyAnswersNeverEnd` | crates/sh/src/pcr.rs:43-117 | a concrete device: answers that hold nothing make reading go on for ever, whatever is selected |
| `PcrReader.SilentNeverRead` | crates/sh/src/pcr.rs:43-117 | a device that answers a request with nothing that was asked for, each time alike, is never read |
| `PcrReader.StoreResponse` | crates/sh/src/pcr.rs:52-72 | a response is filed bank by bank, value by value |
| `PcrReader.StoreSelected` | crates/sh/src/pcr.rs:56-71 | one bank takes its values in ascending register order |
| `PcrReader.UpdateRemaining` | crates/sh/src/pcr.rs:88-117 | the in-place clearing leaves exactly the bits not read |
| `PcrReader.FindEntry` | crates/sh/src/pcr.rs:93-98 | the first answered entry of a bank |
| `PcrReader.ClearBits` | crates/sh/src/pcr.rs:99-112 | the mask loop clears the answered bits and no other |
| `PcrReader.StoreAllHonest` | crates/sh/src/pcr.rs:52-72 | filing a truthful response adds exactly the answered registers, with their values |
| `PcrReader.BankTakes` | crates/sh/src/pcr.rs:56-71 | a bank takes one value for each register in order if there are enough, keeps its others, and leaves the rest of the values |
| `PcrReader.StoredIff` | crates/sh/src/pcr.rs:52-72 | any response, truthful or not, is stored if and only if its banks were asked for and it has a value for each of its registers; otherwise which error |
| `PcrReader.EntryAt` | crates/sh/src/pcr.rs:92-100 | the entry looked up is the first for its bank |
| `PcrReader.RoundReads` | crates/sh/src/pcr.rs:43-77 | after a round, each selected register is stored or still asked for |
| `PcrReader.ReadEnds` | crates/sh/src/pcr.rs:82-86 | when nothing is asked for, everything selected is stored |
| `PcrReader.CountDrops` | crates/sh/src/pcr.rs:88-117 | an answered bit lowers the count of those left |
| `PcrReader.HonestMakesProgress` | crates/sh/src/pcr.rs:26-80 | truthful non-empty answers to such requests make such progress |
| `HandlePattern.FromStr` | crates/sh/src/handle.rs:116-167 | the mask-and-shift loop returns what the digit-by-digit reading specifies, error by error; that reading matches as a glob over the digit table |
| `HandlePattern.ReadCells` | crates/sh/src/handle.rs:140-167 | its digit loop with the padding jump |
| `HandlePattern.ParseAccepts` | crates/sh/src/handle.rs:116-167 | a text is a pattern if and only if it has only hex digits, `?` and at most one `*`, with eight characters or room for the `*` |
| `HandlePattern.MaskFits` | crates/sh/src/handle.rs:88-90 | masking and comparing is comparing digit by digit where the pattern has one |
| `HandlePattern.GlobFits` | crates/sh/src/handle.rs:116-167 | the padded digits fit if and only if the text matches as a glob |
| `HandlePattern.PatternIsGlob` | crates/sh/src/handle.rs:88-167 | a parsed pattern matches a handle if and only if its eight hex digits match the text as a glob |
| `HandlePattern.PrintRoundTrip` | crates/sh/src/handle.rs:93-167 | parsing the printed form of any parsed pattern gives the same mask and value |
| `HandlePattern.Printed` | crates/sh/src/handle.rs:93-112 | a pattern without digits is printed as an asterisk, and else digit by digit with a question mark where there is none |
| `HandlePattern.RefusedExamples` | crates/sh/src/handle.rs:116-139 | texts of seven and nine digits, with two asterisks, and without characters: which error |
| `Kdf.Fill` | crates/crypto/src/hash.rs:277-308 | the counter loop writes exactly the first bytes of the block stream and nothing beyond |
| `Kdf.KdfaInto` | crates/crypto/src/hash.rs:254-308 | KDFa (SP 800-108, section 5.1): errors change nothing; a success writes ceil(bits/8) bytes of the stream, with the counter below 2^32 |
| `Kdf.KdfeInto` | crates/crypto/src/hash.rs:345-388 | the same for KDFe (SP 800-56A, section 5.8.1) |
| `Kdf.Kdfe` | crates/crypto/src/hash.rs:319-331 | the allocating form returns exactly these bytes |
| `Kdf.StreamAt` | crates/crypto/src/hash.rs:277-308 | byte r of block q of the stream is byte r of the block with counter 1 + q |
| `Kdf.StreamPrefix` | crates/crypto/src/hash.rs:277-308 | a shorter stream is a prefix of a longer one |
| `Kdf.KdfePrefix` | crates/crypto/src/hash.rs:345-388 | a shorter KDFe output is a prefix of a longer one |
| `Kdf.TrailingNul` | crates/crypto/src/hash.rs:392-398 | a NUL after a label makes no difference if and only if the label does not end in one already |
| `Kdf.LabelsAlike` | crates/crypto/src/hash.rs:254-388 | so both functions give one output for the label with and without it |
| `Kdf.KdfaBlock` | crates/crypto/src/hash.rs:277-290 | a block of KDFa is the HMAC of counter, label, NUL, first context, second context and number of bits, in this order |
| `Kdf.KdfeBlock` | crates/crypto/src/hash.rs:360-376 | a block of KDFe is the hash of counter, shared secret, label, NUL, first context and second context |
| `Kdf.PayloadLiterals` | crates/crypto/src/hash.rs:277-376 | one message of each, every byte as a number |

## Left out

- VtpmCache.Cache.FetchAncestors: is stated for targets from which no way up goes on for ever; for the others the code does not return, so there is no result to speak of.
- VtpmRestart.RestartSame: a reloaded key equals the saved one up to details hidden behind a Null tag, and its policy steps are those with the same code and body.
- PcrReader.ReadAllPcrs: is stated for devices from which reading ends; a device is a function of the request and the round, which stands for all else that its answers and failures depend on.
- Building a policy context, and its check that all banks have the same count: a context and its PCR count are taken as they are.
- Error payloads: offsets and their rebasing, and the text of offending tokens; a mistake in a secret’s operand is reported as an invalid token without its text.
- Overflow of `usize` in size arithmetic, which no input within memory reaches; 16-bit and 32-bit overflow is modelled.
- Borrowed views: a view is the slice of bytes it covers; unsafe casts, mutable casts, `set_tag` and `set_cc` are not modelled.
- The push operations of `TpmList` and `TpmBuffer`: lists and buffers are sequences within a capacity.
- Capabilities, attestations and the declarations of single commands: the frame theorems hold for any body, and the codec theorems for any schema.
- `to_command` and `vtpm_policy_command_from`, which translate stored steps to and from typed commands field by field.
- Hashing, HMAC and every other call into OpenSSL, and its failures: hash functions are arbitrary functions with outputs of one size; where a lemma needs them to tell inputs apart, it names the finitely many inputs.
- The allocating form of KDFa, which fills a new buffer of the right size by the form modelled.
- Files in the cache directory whose name is no handle or not the canonical one, temporary files, and the creation of the directory; an entry is its handle and its bytes.
- Failures to read a record: the code deletes a record it cannot read like one that does not parse, so the restart theorems speak of directories whose records can be read.
- UTF-8: text is a sequence of characters; the one length in bytes that is observable, in the handle pattern, is modelled.
- The depth of recursion in the parser and the compiler.
- The iterator over keys, `find_by_handle` and the destructor, which flushes.
- Device access, the command line, its tables, the keyring, key files in ASN.1, and certificates.
