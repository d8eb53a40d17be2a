# DarkWow consensus, verified in Dafny

A model of DarkWow's consensus core, taken from its executable specification, with the
properties the network relies on proved for all inputs and all runs. Two smaller cores are
modelled beside it: the static check that a circuit's public inputs are determined, and
relayer fee settlement with its endowment ledger.

`dafny verify dfyconfig.toml` checks the whole project.

| file | what it models |
|---|---|
| `Options.dfy`, `Words.dfy` | optional values; 32-byte words as a free hash algebra, headers, blocks, chains |
| `Retarget.dfy` | difficulty retargeting: one step and the walk from genesis |
| `RetargetLaws.dfy` | which stamps a step reads, how far it moves the target, what a height demands |
| `VmCache.dfy` | the shared cache of hashing machines and its exclusion rule |
| `ChainSpec.dfy` | what a node does to its chain, as functions on values |
| `ChainProofs.dfy` | validity over every run, one reorganisation in detail |
| `Convergence.dfy` | what every run keeps whatever it adopts, and convergence from there |
| `ChainExact.dfy` | exactly when finality and height survive, from any state |
| `Network.dfy` | many nodes that hand each other their chains |
| `UncleChains.dfy` | exactly when a chain of stored candidates is adopted |
| `ChainCandidates.dfy` | when a block becomes canonical; the duplicate filter |
| `MisfiledPeer.dfy` | peer maps that make the run invariant conditional |
| `Finality.dfy`, `ConnectLaws.dfy`, `ReorgLaws.dfy` | finality in header fields; what connecting and reorganising do, case by case, from any state |
| `NodeChain.dfy` | the mutable node, each method proved to compute its specification |
| `UncleMerkle.dfy` | uncle commitment, inclusion proofs, the uncle check |
| `MedianTime.dfy` | the median-time rule along a chain |
| `Emission.dfy` | the fixed-point emission schedule, supply and its audit |
| `EmissionLandmarks.dfy` | the half-life and the first height of the tail |
| `ChainModel.dfy`, `ChainModelLaws.dfy` | the incremental accumulator and the coinbase split; its checks and writes case by case |
| `CircuitSyntax.dfy`, `CircuitCheck.dfy`, `Comparisons.dfy` | circuits, their meaning, and the two checks on them |
| `CircuitLaws.dfy` | what the first check reports, in terms of the statements alone |
| `Endowment.dfy`, `Relayer.dfy` | the endowment contract, settlement and stake |
| `LedgerLaws.dfy` | every answer of the contract, the split and the stake, with its cause and effect |

## How it is modelled

- Objects whose methods update fields are classes; each mutating method is proved to take the
  old state to the value of a function on states, and the theorems are lemmas about those
  functions and about runs of them. Loops in the source are loops here.
- Beside the theorems over runs, the `*Laws` files say what each operation does without
  following its code: every answer with its exact cause, in the fields and numbers themselves,
  and everything that stays the same.
- A digest is a term of a free algebra, so hashing is injective and a leaf digest is never a
  node digest. Proof of work is any function from the mining blob to 32 bits. Two headers are
  the same when their blobs are; the finality fields are outside the blob.
- The chain theorems hold for every retargeting function of the timestamps below a height;
  the network's own walk is one instance, and it is the one the mutable node computes.
- A valid chain has exactly the heights 1..n, and each block carries its height, its parent's
  hash, enough work, and the target the walk from genesis demands.
- Python exceptions are verdicts (`Raised`, `NoTip`, `OverMint`, `DividedByZero`).

## What the code does not guarantee by itself

Where a property fails for some inputs the code is modelled as it is: a lemma states exactly
when the property holds, and another gives a concrete failing input unless the condition names
it already.

- A peer map may file a block under a height that is not the block's own. Validation compares
  the block's height with the size of the scratch chain, not with the key, so the map can be
  adopted, leave a gap, lower the height and lose a final block (`MisfiledAdopted`). A run
  stays valid exactly when no such map is adopted (`RunValidExactly`). Finality survives exactly
  when no adopted map forks below a final block (`RunFinalsExactly`) and the height exactly when
  every adopted map supplies as many blocks as it displaces (`RunHeightExactly`). Nodes that
  exchange their own chains never produce a misfiled map (`Network.StaysValid`).
- On a chain with gaps a reorganisation can return 0 and still drop blocks (`QuietDrop`);
  `ReorgShape` says exactly when. A block adopted on one can be canonical and a candidate at
  once (`StillCandidate`), exactly when it is the block it replaces (`AdoptedCandidates`).
  Convergence survives all of this (`AfterAnyRun`).
- The search for uncle chains follows the first stored child of each block and tries only the
  longest result, so an invalid sibling can keep a valid longer chain from ever being tried
  (`ShadowedChild`); `UncleReorgIff` says exactly when something is adopted and
  `HeldChainAdopted` when the search keeps its promise.
- The uncle check verifies proof i against the root and against the target of uncle i, but
  never compares the header in the proof with uncle i (`BorrowedProofAccepted`,
  `AcceptableIff`). The commitment itself is binding regardless (`UncleBinding`).
- Proofs built for more than 64 uncles do not verify, their paths being longer than six
  (`BuiltProofsHold`).
- A block without a coinbase may pay pins, since the mint is checked only for a positive base
  reward (`UnfundedConnects`, `MintConserved`). A block that fails the mint check stays on the
  chain while the accumulator does not move (`OverMintStays`, `RunInStepExactly`).
- The contract accepts any cut on a deployment, although it bounds the default cut; a settlement
  can then credit more than was pending (`OvercutMints`), and one that finds no active
  deployment drops what was pending (`ConservesAlways`, and over runs `RunConserves`).
- An average interval of zero eases the target like the slowest average does, so monotonicity
  in the average fails there; `MonotoneExactly` says for which averages it holds.

Where the code and its own comments disagree, the code is followed:

- the supply audit's documentation chains the blind through the previous commitment, while the
  code passes the zero commitment at every height, so the blind depends on the height alone;
- the comments on reorganising and on the timestamp rule describe fork choice by accumulated
  work and a timestamp check on every connect, while this code compares heights and, on
  connecting, calls neither the timestamp rule nor the uncle check;
- the accumulator's `get_next_work_required` says it walks the chain, while it returns the live
  target; that the two agree is `RunInStep` and `RunChecksAgree`;
- the comparison check's documentation says that source order does not matter; with a name
  assigned twice the last assignment wins, so it can (`OrderMatters`). `OrderExactly` says when
  two orders agree, and with the same last assignments they always do (`OrderIrrelevant`).

## Model

| member | source | states |
|---|---|---|
| Convergence.AfterAnyRun | contrib/model/chain_validation_model.py:1239-1331 | after any run from the empty state, with arbitrary and misfiled peer maps adopted on the way, a node facing a valid, strictly longer peer chain adopts it if and only if no final block of its own is at a height that chain fills above the common ancestor; otherwise nothing changes, and once adopted the chain has no gaps, the peer's height and the peer's hash at every height |
| Convergence.FromRooted | contrib/model/chain_validation_model.py:1239-1331 | the same from any state in which every block whose hash commits to one ancestor per height below it sits on its parent |
| Convergence.RunRooted | contrib/model/chain_validation_model.py:1107-1410 | every run with arbitrary peer maps keeps that: a block whose named ancestors carry the heights below it, filed under its own height, always has its parent under the key below |
| Convergence.FromValid | contrib/model/chain_validation_model.py:1239-1331 | from a valid state adoption depends on our final blocks above the fork point alone |
| Convergence.RootedFork | contrib/model/chain_validation_model.py:1269-1278 | against a valid peer the scan of such a chain ends at a height up to which both have every block, with equal hashes |
| ChainProofs.RunValidExactly | contrib/model/chain_validation_model.py:1107-1410 | from any valid state and over any interleaving of connects, takes, reorganisations to arbitrary peer maps, uncle-chain reorganisations and machine-cache operations, every state of the run is valid (heights exactly 1..n, hash-linked, proof of work met, genesis-walk targets) if and only if every adopted peer map files its new blocks under their own heights |
| ChainProofs.RunKeeps | contrib/model/chain_validation_model.py:1107-1410 | over every such run whose adopted maps are filed under their own heights the chain stays valid, its height never falls, and a final block is never replaced; what holds without that condition is stated exactly by RunFinalsExactly and RunHeightExactly |
| ChainExact.RunFinalsExactly | contrib/model/chain_validation_model.py:1107-1410 | from any state and over every run with arbitrary peer maps, whatever is final at any point stays canonical at its height to the end if and only if no adopted map forks below a final block of the chain it meets |
| Finality.AnchoredStays | contrib/model/chain_validation_model.py:595-654 | over every run of filed steps from a valid state, a canonical block with a non-zero anchor transaction or a non-zero anchor height stays at its height under Always, and under Signaled when bit 2 of its flags is set |
| Finality.AnchoredStops | contrib/model/chain_validation_model.py:1293-1301 | after any run, one such block at a height that a valid longer chain fills above the common ancestor stops that chain, and nothing changes |
| Finality.UnanchoredYields | contrib/model/chain_validation_model.py:1239-1331 | after any run, blocks under Native, under Signaled without the bit, or without either anchor never stop a valid longer chain: it is adopted whole |
| Finality.FinalMeans | contrib/model/chain_validation_model.py:595-654 | finality in the mode, the flag bit and the two anchor fields, both directions |
| ChainExact.RunHeightExactly | contrib/model/chain_validation_model.py:1107-1410 | from any state and over every run with arbitrary peer maps, the height never falls between any two points if and only if every adopted map supplies at least as many blocks above its ancestor as it makes the node drop |
| ChainExact.StepFinals | contrib/model/chain_validation_model.py:1107-1410 | one step of any kind, from any state, keeps every final block if and only if it adopts nothing or none of our blocks above the ancestor is final |
| ChainExact.StepHeight | contrib/model/chain_validation_model.py:1107-1410 | one step of any kind, from any state, does not lower the height if and only if it adopts nothing or gains at least as many blocks above the ancestor as it drops |
| ChainExact.FiledSpares | contrib/model/chain_validation_model.py:1239-1410 | in a valid state every step whose adopted map is filed under its own heights, uncle-chain reorganisations included, meets both conditions |
| Network.StaysValid | contrib/model/chain_validation_model.py:1239-1331 | any number of nodes that hand each other only their canonical chains all stay valid over every run, never get shorter and never lose a final block, with no condition on what blocks they are fed |
| Network.Converges | contrib/model/chain_validation_model.py:1239-1331 | when one node holds a valid chain strictly longer than every other and no final block of the others is in its way, then after each has synced to it, in any order and however often, every node has its height and its hash at every height, whatever maps the others had adopted before |
| ChainProofs.ReorgValid | contrib/model/chain_validation_model.py:1239-1331 | from a valid state, one reorganisation leaves a valid state if and only if it returned 0 or the peer's blocks above the common ancestor are filed under their own heights |
| ChainProofs.ReorgShape | contrib/model/chain_validation_model.py:1239-1331 | from any state, gaps included: the count is positive if and only if the map is accepted and goes beyond the ancestor, and a count of 0 leaves the state changed if and only if the map's top exceeds our height, the ancestor is at or above that top and we hold a block above the ancestor |
| ChainProofs.ReorgAdopts | contrib/model/chain_validation_model.py:1239-1331 | on a chain without gaps a count of 0 means that nothing changed and any other that the accepted chain was adopted |
| ChainProofs.ReorgFinals | contrib/model/chain_validation_model.py:1293-1331 | from any state and for any peer map, every final block survives if and only if the map is refused or none of our blocks above the ancestor is final |
| ChainProofs.ReorgHeight | contrib/model/chain_validation_model.py:1319-1331 | from any state and for any peer map, adoption trades exactly our blocks above the ancestor for the counted ones; a refused map changes nothing |
| ChainProofs.ReorgHeightDense | contrib/model/chain_validation_model.py:1319-1331 | on a chain without gaps the new height is the ancestor plus the count, or the old height when the count is 0 |
| MisfiledPeer.QuietDrop | contrib/model/chain_validation_model.py:1264-1331 | a concrete pair of maps: after the first, misfiled one is adopted, the second returns 0, yet the chain shrinks from 3 blocks to 2 and the dropped block becomes a candidate |
| ChainProofs.ReorgLonger | contrib/model/chain_validation_model.py:1269-1331 | from a valid state, an adopted keyed peer supplies every height above the ancestor, the chain grows strictly to the peer's height, and nothing at or below the ancestor changes |
| ChainProofs.ReorgFinal | contrib/model/chain_validation_model.py:1293-1301 | from a valid state, a keyed reorganisation, accepted or not, leaves every final block where it was |
| ChainProofs.AdoptedCandidates | contrib/model/chain_validation_model.py:1308-1331 | from any state, after the adoption of any peer map, at every height above the ancestor the disconnected block is a candidate, and the block now canonical is one if and only if it has the hash of the block it replaced |
| MisfiledPeer.StillCandidate | contrib/model/chain_validation_model.py:1286-1331 | a concrete pair of misfiled maps after which the block under key 6 is canonical and a candidate at once |
| ChainProofs.ReorgCandidates | contrib/model/chain_validation_model.py:1308-1331 | from a valid state, after the adoption of any peer map, misfiled ones included, at every height above the ancestor the block now canonical is no candidate and the disconnected block is one |
| ChainProofs.NoneShared | contrib/model/chain_validation_model.py:1269-1303 | on a valid chain no accepted peer block above the ancestor has the hash of ours at its height: such a block's scratch chain has no gap, so its parent would be shared too, down to the ancestor |
| ChainProofs.ForkPoint | contrib/model/chain_validation_model.py:1269-1278 | on two valid chains the ancestor scan finds the fork: equal hashes at and below it, different hashes at every shared height above it |
| ChainProofs.AcceptedValid | contrib/model/chain_validation_model.py:1285-1303 | for a valid chain of ours, the chain built while validating a peer map is valid if and only if the map is keyed above the ancestor |
| ChainProofs.ReplayStuck | contrib/model/chain_validation_model.py:1286-1291 | once a height is missing from a keyed peer map nothing above it validates |
| ChainProofs.ReplayAccepts | contrib/model/chain_validation_model.py:1286-1303 | a valid peer chain replays to the end on any scratch chain that agrees with it so far, unless a final block is in the way |
| ChainProofs.ExtendValid | contrib/model/chain_validation_model.py:974-1040 | block validation accepts exactly the blocks that keep a valid chain valid when put on top of it |
| ChainProofs.ConnectValid | contrib/model/chain_validation_model.py:1107-1222 | from a valid state, connecting a block keeps the state valid and either leaves the chain alone or adds that one block on top |
| ChainProofs.StepKeeps | contrib/model/chain_validation_model.py:1107-1410 | from a valid state, one step of any kind whose adopted map, if any, is filed under its own heights keeps the state valid, never lowers the height and never moves a final block |
| ChainProofs.ClimbLinked | contrib/model/chain_validation_model.py:1367-1389 | the upward walk through the candidates yields a hash-linked run on consecutive heights |
| ChainProofs.BestUncleLongest | contrib/model/chain_validation_model.py:1345-1406 | the scan ends with a top at least that of every first-child climb it starts, at candidates of heights up to one above ours, or finds none above our height; chains that branch off a later child are not climbed |
| UncleChains.UncleReorgIff | contrib/model/chain_validation_model.py:1333-1410 | uncle chains are adopted if and only if the scan finds a longer one, the chain it picks is valid, and none of our blocks above its fork is final; the node then has its height and its hash at every height |
| UncleChains.HeldChainAdopted | contrib/model/chain_validation_model.py:1333-1410 | with at most one stored child per parent and no invalid stored climb that outgrows ours, a node that holds a valid longer chain as candidates adopts one at least that long, if and only if no final block of ours is above its fork |
| UncleChains.HeldChainFound | contrib/model/chain_validation_model.py:1345-1406 | with at most one stored child per parent, the scan finds a chain at least as long as any valid longer chain held as candidates |
| UncleChains.ShadowedChild | contrib/model/chain_validation_model.py:1378-1410 | a concrete state holds a valid longer chain, but the first stored child of its fork block misses its target and shadows the valid one: the scan picks it and nothing is adopted, although a reorganisation to the held chain would succeed |
| UncleChains.AcceptedIff | contrib/model/chain_validation_model.py:1264-1303 | a longer keyed map without gaps is accepted if and only if it is a valid chain and none of our blocks above the ancestor is final |
| ChainProofs.BestUncleKeyed | contrib/model/chain_validation_model.py:1345-1406 | whatever chain the uncle scan picks is filed under its own heights, so uncle-chain reorganisations need no side condition |
| MisfiledPeer.MisfiledAdopted | contrib/model/chain_validation_model.py:1239-1331 | a concrete peer map that files a block of height 2 under height 4 is adopted: the heights get a gap, the height falls from 3 to 2 and a final block is lost |
| ChainCandidates.CanonicalExactly | contrib/model/chain_validation_model.py:1152-1220 | from a valid state, a delivered block becomes canonical if and only if no other task hashes on its machine (nor holds it while a stray connect hashes), the chain with it on top is valid and it has an uncle root just when uncles are passed; exactly the candidates within uncle depth survive |
| ConnectLaws.CompetingExactly | contrib/model/chain_validation_model.py:1131-1146 | from any state, a block of our own height is answered as competing if and only if its machine is free, its work value is at most its target and its hash is not remembered; then it is appended to its height's candidates and remembered and no other height changes, otherwise no candidate changes |
| ConnectLaws.ExtensionExactly | contrib/model/chain_validation_model.py:1152-1173 | a block on a candidate of our height is answered as competing without a work check and stored if and only if its hash is not remembered; the machine cache is left alone |
| ConnectLaws.MissingTipRaises | contrib/model/chain_validation_model.py:1152-1157 | a chain without a block at its own height raises on every block of another height and changes nothing |
| ConnectLaws.CanonicalPath | contrib/model/chain_validation_model.py:1178-1220 | on every other block: rejected if and only if the machine is taken, validation fails or a final block is in the place, raised if and only if the uncle root does not fit the uncles passed, otherwise written and counted, nothing else of the chain changing |
| ConnectLaws.CanonicalCleans | contrib/model/chain_validation_model.py:1211-1218 | connecting keeps the candidates of heights down to six below the block and forgets exactly the hashes of the deeper ones |
| ConnectLaws.InvalidReasons | contrib/model/chain_validation_model.py:974-1040 | each reason for invalidity is given if and only if its check is the first to fail, in the order work, height, parent, target |
| ConnectLaws.TakeExactly | contrib/model/chain_validation_model.py:1224-1233 | the candidates of a height are handed out in order; then it has none, exactly their hashes are forgotten and nothing else changes |
| ReorgLaws.AcceptedExactly | contrib/model/chain_validation_model.py:1264-1303 | for any two maps, a peer map is accepted if and only if its top exceeds our size and each of its blocks above the ancestor validates on what is built below it and replaces nothing final; what is built is our blocks up to the ancestor with all of them |
| ReorgLaws.AncestorExactly | contrib/model/chain_validation_model.py:1269-1278 | the common ancestor is 0 or a shared height with equal hashes, no shared height up to it differs, and every shared height above it has a differing one at or below it |
| ReorgLaws.CandidatesExactly | contrib/model/chain_validation_model.py:1308-1322 | after an adoption the candidates of a height are the old ones without the hash of the block adopted there, in order, followed by our own block if it was disconnected; a height left with none has no entry |
| ReorgLaws.ForgetsExactly | contrib/model/chain_validation_model.py:1308-1317 | an adoption forgets exactly the hashes of adopted blocks at heights that had candidates |
| ReorgLaws.ClimbExactly | contrib/model/chain_validation_model.py:1367-1389 | a climb takes the first stored child at every height and ends only where there is none |
| ReorgLaws.BestUncleExactly | contrib/model/chain_validation_model.py:1345-1406 | the scan takes the first candidate, by height and position, with the greatest top above our height, or none if there is none |
| ChainCandidates.RunSeen | contrib/model/chain_validation_model.py:1107-1331 | over every run, arbitrary peer maps included, a hash in the duplicate filter belongs to a stored candidate of its height |
| NodeChain.CheckBlock | contrib/model/chain_validation_model.py:974-1040 | the imperative validation computes the specified verdict, checks in source order |
| NodeChain.LargestKey | contrib/model/chain_validation_model.py:1264-1264 | the largest key of a map, 0 when it is empty |
| NodeChain.FindAncestor | contrib/model/chain_validation_model.py:1269-1278 | the upward scan returns the common ancestor, for any two maps |
| NodeChain.ReplayPeer | contrib/model/chain_validation_model.py:1285-1303 | validating the peer on a scratch chain yields the specified result or refusal |
| NodeChain.Node.constructor | contrib/model/chain_validation_model.py:1085-1096 | a new node is in the valid empty state |
| NodeChain.Node.Probe | contrib/model/chain_validation_model.py:998-1007 | the guarded hash leaves the machine cache as specified |
| NodeChain.Node.StoreCandidate | contrib/model/chain_validation_model.py:1143-1144 | a candidate is appended at its height and its hash remembered |
| NodeChain.Node.IsUncleParent | contrib/model/chain_validation_model.py:1157-1161 | whether some candidate at a height has the given hash |
| NodeChain.Node.Forget | contrib/model/chain_validation_model.py:1216-1217 | exactly the hashes of the listed candidates leave the duplicate filter |
| NodeChain.Node.CleanStale | contrib/model/chain_validation_model.py:1211-1218 | exactly the heights deeper than an uncle may be are dropped, with their hashes |
| NodeChain.Node.ConnectBlock | contrib/model/chain_validation_model.py:1107-1222 | under the lock the whole new state and the verdict are the specified ones, the lock is released on every path, and validity is kept; a held lock raises and changes nothing |
| NodeChain.Node.ConnectLocked | contrib/model/chain_validation_model.py:1128-1220 | competing, uncle-extension and canonical paths lead to the specified state and verdict |
| NodeChain.Node.Extend | contrib/model/chain_validation_model.py:1178-1220 | the canonical path checks, writes and cleans up as specified |
| NodeChain.Node.TakeCompetingBlocks | contrib/model/chain_validation_model.py:1224-1233 | the candidates of a height are returned and forgotten |
| NodeChain.Node.DropPeerCandidates | contrib/model/chain_validation_model.py:1308-1317 | the peer blocks about to become canonical stop being candidates, emptied heights disappear, their hashes are forgotten |
| NodeChain.Node.Disconnect | contrib/model/chain_validation_model.py:1320-1322 | exactly our blocks above the ancestor leave the chain and join the candidates at their heights |
| NodeChain.Node.ConnectPeer | contrib/model/chain_validation_model.py:1325-1331 | the peer blocks overlay the chain and the count is the number of them |
| NodeChain.Node.ReorgToHeavierChain | contrib/model/chain_validation_model.py:1239-1331 | the mutable reorganisation computes the specified state and count from any state |
| NodeChain.Node.BuildUncleChain | contrib/model/chain_validation_model.py:1359-1391 | the chain through one candidate and its top are the specified ones |
| NodeChain.Node.IsContinuous | contrib/model/chain_validation_model.py:1394-1403 | the continuity check answers whether every block follows its predecessor |
| NodeChain.Node.TryReorgFromUncleChains | contrib/model/chain_validation_model.py:1333-1410 | the uncle-chain reorganisation computes the specified state and count from any state |
| NodeChain.UncleChainContinuous | contrib/model/chain_validation_model.py:1391-1403 | the continuity check made on a finished uncle chain always succeeds |
| Retarget.ComputeAdjustment | contrib/model/chain_validation_model.py:414-453 | the loop computes one retarget step on the last ten intervals |
| Retarget.GetNextWorkRequired | contrib/model/chain_validation_model.py:456-494 | the target demanded at a height: the genesis constant, or the walk over the heights below it up to the first gap |
| Retarget.WalkBlocks | contrib/model/chain_validation_model.py:479-494 | the loop with its sliding window computes the walk from genesis |
| RetargetLaws.OldStampsIgnored | contrib/model/chain_validation_model.py:414-436 | stamps older than the last ten never matter to a step |
| RetargetLaws.OrderedAverage | contrib/model/chain_validation_model.py:414-436 | on stamps in order the step uses the distance from the tenth newest stamp, or the oldest of fewer, to the newest, divided by the number of gaps |
| RetargetLaws.BackwardStamp | contrib/model/chain_validation_model.py:426-436 | a window that ends with a step back is judged by the distance covered before it: the backward step counts zero |
| RetargetLaws.TooFewStamps | contrib/model/chain_validation_model.py:414-425 | fewer than two stamps leave the target alone |
| RetargetLaws.StepCapped | contrib/model/chain_validation_model.py:436-453 | averages from 1 to 109 tighten and averages of zero or from 134 on ease by the full tenth |
| RetargetLaws.StepProportional | contrib/model/chain_validation_model.py:436-453 | between them the new target is the old one times the average over 120 seconds, up to the rounding of the ratio |
| RetargetLaws.WalkUnwindowed | contrib/model/chain_validation_model.py:479-494 | the sliding window of twenty stamps loses nothing: each height adjusts as if on all stamps so far |
| RetargetLaws.SteadyWalk | contrib/model/chain_validation_model.py:456-494 | a chain with one block every two minutes keeps the initial target at every height |
| RetargetLaws.DemandExactly | contrib/model/chain_validation_model.py:456-494 | the first height demands the easiest target, every other on a gapless chain what the rule gives on exactly the timestamps below it |
| RetargetLaws.GapHides | contrib/model/chain_validation_model.py:482-484 | a missing height hides every timestamp above it |
| Retarget.StepBounds | contrib/model/chain_validation_model.py:441-453 | a step from t lands between floor(10t/11) and floor(10t/9), clamped to the legal range |
| Retarget.StepMonotone | contrib/model/chain_validation_model.py:436-453 | slower blocks never tighten the target when the average interval is at least 1 |
| Retarget.MonotoneExactly | contrib/model/chain_validation_model.py:436-453 | for averages fast <= slow, no legal target is eased more by the fast one if and only if fast is at least 1, or slow is 0, or slow is at least 134 |
| Retarget.ZeroAverageEases | contrib/model/chain_validation_model.py:438-439 | an average interval of 0 eases the target to floor(10t/9), a strict rise from 9 on |
| Retarget.StepFixed | contrib/model/chain_validation_model.py:436-453 | a step leaves every legal target alone if and only if the average interval is 120 |
| Retarget.CanRise | contrib/model/chain_validation_model.py:436-453 | some average interval raises the target t if and only if 9 <= t < 2^32 - 1 |
| Retarget.WalkRange | contrib/model/chain_validation_model.py:456-494 | every target of every walk is a legal 32-bit target |
| Retarget.LowTargetTrap | contrib/model/chain_validation_model.py:456-494 | a walk that has reached a target of 8 or less never rises again |
| Retarget.StampsAgree | contrib/model/chain_validation_model.py:456-494 | the rule at a height reads only the timestamps below it |
| Retarget.StampsStop | contrib/model/chain_validation_model.py:482-484 | nothing above the first missing height is read |
| VmCache.RunSound | contrib/model/chain_validation_model.py:299-400 | over every interleaving of get, start, stop and release by any tasks, hashers are holders, at most one task hashes per key, and no entry is left without a holder |
| VmCache.RunExclusive | contrib/model/chain_validation_model.py:299-400 | in any run that logs no crash a hashing task is the sole holder of its key |
| VmCache.CrashStep | contrib/model/chain_validation_model.py:313-392 | from a crash-free exclusive cache a step logs a crash if and only if it joins a machine another task hashes on, or starts hashing on one another task holds |
| VmCache.SoundStep | contrib/model/chain_validation_model.py:313-397 | each single operation keeps the cache sound |
| VmCache.ProbeEffect | contrib/model/chain_validation_model.py:998-1007 | for every sound cache and also for a task that already holds the machine: a guarded hash is granted if and only if no other task hashes on the machine and, if this task does, nobody else holds it; a granted one leaves the machine without the task and logs a line just when another task holds it, a refused one logs a crash and leaves the task a holder, and no other machine changes |
| VmCache.ProbeGranted | contrib/model/chain_validation_model.py:998-1007 | for every cache, sound or not, the grant depends on the holders and hashers of that machine alone |
| VmCache.GetExactly | contrib/model/chain_validation_model.py:313-346 | a machine is refused and a crash logged if and only if another task hashes on it or this one hashes while another holds it; who holds and hashes afterwards, for this key and all others |
| VmCache.StartExactly | contrib/model/chain_validation_model.py:357-392 | hashing starts if and only if the task is the one holder; a task that holds nothing is logged as misuse, any other refusal as a crash, and neither changes a machine |
| VmCache.EndExactly | contrib/model/chain_validation_model.py:348-397 | stopping ends the task's hashing, releasing its hold too, and a machine nobody holds is no longer cached; nothing is logged and no other key changes |
| VmCache.VMCache.constructor | contrib/model/chain_validation_model.py:308-311 | a new cache is empty |
| VmCache.VMCache.GetVm | contrib/model/chain_validation_model.py:313-346 | state, log and answer are the specified ones, on both refusal paths too |
| VmCache.VMCache.ReleaseVm | contrib/model/chain_validation_model.py:348-355 | the task is neither holder nor hasher afterwards and an unused entry is deleted |
| VmCache.VMCache.StartHash | contrib/model/chain_validation_model.py:357-392 | state, log and answer are the specified ones for the four refusals and the grant |
| VmCache.VMCache.StopHash | contrib/model/chain_validation_model.py:394-397 | the task stops hashing, nothing else changes |
| VmCache.VMCache.CrashCount | contrib/model/chain_validation_model.py:399-400 | the number of log positions that are crash lines; 0 if and only if the log is crash-free |
| UncleMerkle.BuildUncleMerkle | contrib/model/chain_validation_model.py:690-744 | the layer-by-layer builder returns the Merkle root and, for each uncle, its sibling path |
| UncleMerkle.PairUp | contrib/model/chain_validation_model.py:710-718 | one layer is paired with its last node duplicated when odd |
| UncleMerkle.WalkLayers | contrib/model/chain_validation_model.py:726-735 | the proof walk collects the sibling path of a position |
| UncleMerkle.VerifyUncleProof | contrib/model/chain_validation_model.py:758-791 | the verifier accepts if and only if hash, work, length and folded path are right |
| UncleMerkle.CheckUncles | contrib/model/chain_validation_model.py:794-856 | the full check accepts if and only if root, proofs, recency, derived pins and uniqueness hold |
| UncleMerkle.AllDifferent | contrib/model/chain_validation_model.py:848-854 | the seen-set loop decides pairwise distinctness |
| UncleMerkle.UncleBinding | contrib/model/chain_validation_model.py:794-856 | two lists that both pass for one header are the same headers in the same order, at whatever heights and with whatever proofs they were checked |
| UncleMerkle.RootBinding | contrib/model/chain_validation_model.py:690-721 | lists of distinct leaves with the same root are equal, although odd layers duplicate their last node |
| UncleMerkle.RootExpands | contrib/model/chain_validation_model.py:709-721 | the root expands, layer by layer, to the leaves followed only by repeats of them |
| UncleMerkle.BuiltProofsHold | contrib/model/chain_validation_model.py:690-791 | the built proofs all verify against the built root if and only if there are at most 64 uncles and each meets its own target |
| UncleMerkle.BuiltProofIff | contrib/model/chain_validation_model.py:725-791 | one built proof verifies against a target if and only if there are at most 64 uncles and its uncle meets that target |
| UncleMerkle.PathFolds | contrib/model/chain_validation_model.py:725-735 | folding a leaf along its path gives the root, and the path is as long as the tree is deep |
| UncleMerkle.ProofSound | contrib/model/chain_validation_model.py:758-791 | any proof that verifies against a built root names a header of the list, whatever its position, states that header's own hash, shows its work and has a path of at most six |
| UncleMerkle.ProofLength | contrib/model/chain_validation_model.py:758-791 | a verifying proof is exactly as long as the tree is deep |
| UncleMerkle.ProofUnique | contrib/model/chain_validation_model.py:758-791 | under one root, a position and a path length admit one header and one path |
| UncleMerkle.HalvesJoin | contrib/model/chain_validation_model.py:709-721 | one leaf is its own root, and the two equal halves of a power of two join under one node, left before right |
| UncleMerkle.OddRepeatsLast | contrib/model/chain_validation_model.py:709-721 | from three leaves on, an odd list has the root of the list with its last leaf repeated |
| UncleMerkle.EmptyRoot | contrib/model/chain_validation_model.py:699-721 | an empty list has the zero root, a list with an uncle never has |
| UncleMerkle.CheckExactly | contrib/model/chain_validation_model.py:794-856 | with given proofs a list passes if and only if its root matches, each uncle is one to six heights back with the derived pin if accepted, headers differ, and proof i verifies against the target of uncle i; further proofs are ignored |
| UncleMerkle.AcceptableIff | contrib/model/chain_validation_model.py:794-856 | some proofs make a list pass if and only if it is well formed, has at most 64 uncles and each uncle's target is met by the work of some uncle of the list |
| UncleMerkle.AlignedWork | contrib/model/chain_validation_model.py:815-819 | when proof i names uncle i, every accepted uncle meets its own target |
| UncleMerkle.BorrowedProofAccepted | contrib/model/chain_validation_model.py:815-819 | a concrete list passes although one uncle misses its own target, because proof i is never compared with uncle i |
| MedianTime.ValidateTimestamp | contrib/model/chain_validation_model.py:900-909 | a stamp is accepted if and only if, among the heights of the chain up to eleven below, there are none or more than half are stamped strictly earlier |
| MedianTime.AcceptsExactly | contrib/model/chain_validation_model.py:900-909 | the rule in counts of heights: of the blocks up to eleven heights below, none exist or more than half are stamped strictly earlier |
| MedianTime.MedianRank | contrib/model/chain_validation_model.py:904-907 | the upper median is at most m if and only if more than half of the stamps are |
| MedianTime.MedianNeverFalls | contrib/model/chain_validation_model.py:864-909 | along a chain whose blocks all pass, the window median never decreases |
| MedianTime.MedianRisesInSix | contrib/model/chain_validation_model.py:864-909 | it strictly increases over any six blocks, short bootstrap windows included |
| MedianTime.AfterGenesis | contrib/model/chain_validation_model.py:864-909 | every later block is stamped after genesis |
| MedianTime.WindowSlides | contrib/model/chain_validation_model.py:900-904 | the window gains the new stamp and loses at most its oldest |
| Emission.PowError | sim/crypto.py:191-204 | for every exponent e the truncated power lies between exact - e and exact, where exact is 2^32 times the real power |
| Emission.PowLoopNear | sim/crypto.py:191-204 | the loop invariant behind the bound: every exponent bit of weight k adds k to the error |
| Emission.FormsAgree | sim/crypto.py:207-222 | closed-form and step-by-step rewards are equal at height 1 and differ by at most h - 2 at every height h >= 2, tail floor included |
| Emission.RewardDecreases | sim/crypto.py:207-222 | from height 1 on the closed-form reward never rises and stays between the tail and the initial reward |
| Emission.PowLoopCarry | sim/crypto.py:191-204 | adding one to the exponent never raises the truncated power, by carry induction over its bits |
| Emission.SteppedError | contrib/model/chain_validation_model.py:76-103 | after n steps the iterated reward is less than n below the exact one and never above it |
| Emission.ClosedError | sim/crypto.py:207-222 | the closed form before the floor is less than n/3 + 1 below the exact reward and never above it |
| Emission.RewardError | sim/crypto.py:207-222 | at every height from 1 on both forms lie below the larger of the tail and the exact geometric reward, by less than the height; at height 0 both are 0 |
| Emission.SupplyError | sim/crypto.py:225-233 | the supply at h is below the sum of the exact rewards by at most h (h + 1) / 2 |
| EmissionLandmarks.TailFrom | doc/src/arch/consensus-coinbase.md:940-946 | the reward is the tail if and only if the height is at least 4,327,299 |
| EmissionLandmarks.LinearSupply | doc/src/arch/consensus-coinbase.md:944-947 | from there the supply grows by exactly the tail per block |
| EmissionLandmarks.HalfLife | contrib/model/supply_chain_model.py:29-33 | the first reward is 1,383,764,049, and after 1,051,920 decays it is half of that, short by less than one part in 4,000 |
| Emission.FixedPowDecay | sim/crypto.py:191-204 | the exponentiation loop computes the specified truncated power |
| Emission.ExpectedReward | contrib/model/chain_validation_model.py:76-103 | the iterated loop, with its early return at the tail, computes the floored stepped reward |
| Emission.ComputeClosedReward | sim/crypto.py:207-222 | the closed form computes the specified reward |
| Emission.ExpectedCumulativeSupply | sim/crypto.py:225-233 | the loop sums the rewards of heights 1..h |
| Emission.VerifyCumulativeSupply | sim/crypto.py:257-286 | the audit accepts if and only if entry i carries height i + 1 and commits to the whole supply and the sum of the blinds up to it |
| Emission.AuditExactly | sim/crypto.py:257-286 | the accepted lists are exactly those in which every entry adds to the one before it a commitment to the reward of its height under that height's scalar |
| ChainModel.RunInStep | contrib/model/chain_model.py:420-564 | over every run of successful connects the windowed accumulator's target and window are those of the walk from genesis, accumulated work is the sum of block work, the chain is valid and has one block per connect |
| ChainModel.RunInStepExactly | contrib/model/chain_model.py:420-564 | over every run, refused and over-minting deliveries included, the chain has no gaps and the accumulator is in step with the walk from genesis if and only if no delivery over-minted; otherwise it has counted strictly less work than the chain holds |
| ChainModel.DeliveryLag | contrib/model/chain_model.py:420-564 | one delivery adds to the uncounted work exactly the work of a block that over-mints, which is positive |
| ChainModel.OverMintStays | contrib/model/chain_model.py:448-451 | a concrete block whose note exceeds its base is refused by the mint check and stays on the chain, with the accumulator unmoved |
| ChainModel.RunChecksAgree | contrib/model/chain_model.py:54-67 | after every run of successful connects the live target is the one the genesis walk demands next, and exactly the blocks that full validation accepts pass the header check |
| ChainModel.ChecksAgree | contrib/model/chain_model.py:312-353 | the header check here and full validation accept the same blocks |
| ChainModelLaws.RefusalExactly | contrib/model/chain_model.py:312-353 | each refusal is given if and only if its check is the first to fail, in the order work, target, height, parent |
| ChainModelLaws.RefusedUnchanged | contrib/model/chain_model.py:420-451 | a chain without a tip block raises before any check; a refused block changes nothing |
| ChainModelLaws.CoinbaseExactly | contrib/model/chain_model.py:489-500 | base reward and note come from the last transaction with a positive reward, an undeclared note being the full reward; without one both are 0 |
| ChainModelLaws.PinsExactly | contrib/model/chain_model.py:507-524 | the pins paid are those of accepted uncles with a positive pin, added up |
| ChainModelLaws.MintExactly | contrib/model/chain_model.py:489-559 | a block that passes the header checks over-mints if and only if it has a coinbase whose note and the pins paid do not add up to its reward |
| ChainModelLaws.WrittenExactly | contrib/model/chain_model.py:448-564 | a written block is filed with its hash under its height and exactly its coinbase and pin notes are added under it; only a connected one moves the accumulator |
| ChainModelLaws.HashesMatch | contrib/model/chain_model.py:420-564 | over every run hashes are kept for exactly the heights that have a block, and are theirs |
| ChainModelLaws.WorkExactly | contrib/model/chain_model.py:69-77 | a block's work w is the whole number with w t <= 2^32 - 1 < (w + 1) t, and 0 for a zero target |
| ChainModelLaws.CreatedExactly | contrib/model/chain_model.py:187-198 | a created uncle keeps its header, is not accepted, and carries the base halved once per level, six times at most, rounded down |
| ChainModel.ConnectInStep | contrib/model/chain_model.py:420-564 | one successful connect keeps the accumulator in step |
| ChainModel.MintConserved | contrib/model/chain_model.py:489-559 | over every run of successful connects, coinbase notes plus accepted pins equal the base rewards if and only if no block pays a pin without a coinbase, and never fall short |
| ChainModel.UnfundedConnects | contrib/model/chain_model.py:489-559 | a concrete block without a coinbase connects although it pays a pin of 5 |
| ChainModel.CanonicalShare | contrib/model/chain_model.py:187-214 | whatever rejected uncles a list holds, if its accepted ones are at distinct depths in 1..6 the base less the pins paid is at least base/64 |
| ChainModel.ConnectedShare | contrib/model/chain_model.py:489-559 | in a connected block with such uncles the spendable coinbase note is exactly the base less the pins and at least base/64 |
| ChainModel.CheckedShare | contrib/model/chain_model.py:489-559 | a connected block that pays the scheduled reward and whose uncles pass the uncle check, at most one accepted per height, leaves its miner at least 1/64 of the reward |
| ChainModel.DistinctDepthShare | contrib/model/chain_model.py:187-214 | pins at distinct depths 1..k leave at least the base halved k times, for every k |
| ChainModel.ComputeReward | contrib/model/chain_model.py:200-214 | each reward is its uncle's pin if accepted and 0 otherwise, and canonical plus rewards is exactly the base |
| ChainModel.VerifyUncleSplit | contrib/model/chain_model.py:217-231 | accepts if and only if canonical plus pins is the base |
| ChainModel.PoWConsensus.constructor | contrib/model/chain_model.py:45-52 | a fresh accumulator |
| ChainModel.PoWConsensus.RecordBlock | contrib/model/chain_model.py:79-83 | the window drops its oldest stamp when full and gains the new one |
| ChainModel.PoWConsensus.AdjustTarget | contrib/model/chain_model.py:85-127 | the target moves by one retarget step on the window |
| ChainModel.PoWConsensus.AddWork | contrib/model/chain_model.py:69-77 | the block's work is added, 0 for target 0 |
| ChainModel.ChainState.constructor | contrib/model/chain_model.py:360-372 | an empty chain with a fresh accumulator |
| ChainModel.ChainState.ReadCoinbase | contrib/model/chain_model.py:489-500 | the last rewarding transaction is the coinbase and its note is tracked |
| ChainModel.ChainState.PayUncles | contrib/model/chain_model.py:507-524 | total and list of the paid pins, each tracked at the height |
| ChainModel.ChainState.ConnectBlock | contrib/model/chain_model.py:420-564 | the whole new state and verdict, the over-mint path included, which keeps the block written but not the accumulator moved |
| CircuitSyntax.Support | script/circuit_instance_derivation.py:282-298 | the worklist terminates with exactly the identifiers reachable from the expression |
| CircuitSyntax.ResolveName | script/circuit_instance_derivation.py:301-315 | the bounded loop follows a name as specified |
| CircuitSyntax.ResolveKeeps | script/circuit_instance_derivation.py:301-315 | in every valuation that satisfies the assignments, following a name does not change its value |
| CircuitSyntax.ResolveReach | script/circuit_instance_derivation.py:301-315 | following a name makes nothing new reachable |
| CircuitCheck.CheckerSound | script/circuit_instance_derivation.py:435-512 | when nothing is reported, in every valuation satisfying assignments and equalities each exposed value is a constant, equals a closed form (a literal, a constant or a call of known opcodes over declared names, never a bare witness), is declared free, or is a witness reached from the pin of an exposed expression that equals such a form |
| CircuitCheck.NoFreedom | script/circuit_instance_derivation.py:435-512 | when nothing is reported, two satisfying valuations that agree on the declared names agree on every exposed value |
| CircuitCheck.NoFindingsIff | script/circuit_instance_derivation.py:435-512 | nothing is reported if and only if every exposure has one argument that is pinned before it, a constant, or a witness redundant in the whole circuit or declared free |
| CircuitLaws.NoFindingsExactly | script/circuit_instance_derivation.py:435-512 | nothing is reported if and only if every exposure has one argument that is a constant, determined by the statements before it, first equated there with something determined, or a witness that is declared free or reached from such a determination |
| CircuitLaws.HeldBackEnds | script/circuit_instance_derivation.py:475-512 | an exposed witness nothing before pins is redundant if and only if an exposed determination reaches it, else declared free if and only if it is, else reported by name; nothing else ends in these ways |
| CircuitLaws.BareEqualitiesPinNothing | script/circuit_instance_derivation.py:234-273 | equalities with names that are neither constant nor derived pin nothing, however many there are |
| CircuitLaws.RelayedWitnessReported | script/circuit_instance_derivation.py:435-512 | a witness exposed after being equated with another bare witness is reported |
| CircuitLaws.WalkDerives | script/circuit_instance_derivation.py:234-273 | the derived names are exactly those assigned, under a name that is not ignored, an expression the statements before determine; a bare witness is not determined |
| CircuitLaws.WalkBinds | script/circuit_instance_derivation.py:461-470 | a name is bound if and only if it is equated with something determined, and to the first such expression |
| CircuitLaws.ExposureMeans | script/circuit_instance_derivation.py:475-496 | the class of an exposure, and whether it is reported at once or held back, by what the statements before it say about its argument |
| CircuitLaws.PinMeans | script/circuit_instance_derivation.py:476-493 | what pins an exposed name: its last assignment or first binding, followed through the assignments made so far |
| CircuitLaws.ResolveExactly | script/circuit_instance_derivation.py:301-315 | following a name makes as many hops as reach new assigned names, sixteen at most |
| CircuitLaws.FirstPinExactly | script/circuit_instance_derivation.py:499-505 | the pin noted for a redundant witness is the earliest that reaches it |
| CircuitCheck.PinnedSound | script/circuit_instance_derivation.py:476-493 | an expression with a pin has a closed form, and expression, pin and closed form are equal in every satisfying valuation |
| CircuitCheck.GroundIsOk | script/circuit_instance_derivation.py:234-273 | every derived name unfolds to a closed form over declared names |
| CircuitCheck.Classify | script/circuit_instance_derivation.py:435-512 | the imperative walk and settling return the specified findings, instances and notes |
| CircuitCheck.ExposeArgument | script/circuit_instance_derivation.py:475-496 | one exposure is classified as specified |
| CircuitCheck.FindPin | script/circuit_instance_derivation.py:499-499 | the first exposed determination that reaches the witness, if any |
| CircuitCheck.SettleWitness | script/circuit_instance_derivation.py:499-511 | one held-back witness is settled as specified, its first pin recorded |
| CircuitCheck.SettlePending | script/circuit_instance_derivation.py:498-511 | held-back witnesses become redundant, declared free or findings as specified |
| Comparisons.ComparisonFindings | script/circuit_instance_derivation.py:363-432 | the two passes return exactly the specified findings, each with its unchecked witnesses, and the specified list of excused comparisons, in source order |
| Comparisons.VerdictMeans | script/circuit_instance_derivation.py:411-432 | nothing is found if and only if every comparison has two operands and is excepted or rests only on witnesses range-checked anywhere in the circuit; a comparison is listed as excused if and only if an exception names it and it needs one |
| Comparisons.FindingsExactly | script/circuit_instance_derivation.py:363-432 | exactly the deserved findings are made: a comparison with fewer than two operands, and each operand of an unexcused one that rests on a witness no range check bounds |
| Comparisons.Collect | script/circuit_instance_derivation.py:388-409 | the first pass collects exactly the range-checked names and the last assignment of each name |
| Comparisons.CheckOperand | script/circuit_instance_derivation.py:418-431 | one operand is judged as specified |
| Comparisons.UncheckedLeaves | script/circuit_instance_derivation.py:419-420 | exactly the witnesses under an operand that no range check bounds |
| Comparisons.OrderIrrelevant | script/circuit_instance_derivation.py:380-386 | the same statements with the same last assignment to each name get the same verdict statement by statement, in any order and with any repeats |
| Comparisons.OrderExactly | script/circuit_instance_derivation.py:380-386 | two orders of the same statements get the same verdict for every set of witnesses if and only if some comparison lacks an operand or the same unbounded names lie under the compared operands of both |
| Comparisons.OrderMatters | script/circuit_instance_derivation.py:380-402 | a concrete circuit that assigns a name twice passes in one order and is reported in the other |
| Comparisons.SingleAssigned | script/circuit_instance_derivation.py:400-402 | where each name is assigned one value, every order has the same last assignments |
| Endowment.RunInOrder | sim/endowment.py:42-181 | over every run each account's cached total and count equal the recomputed ones |
| Endowment.FeesConserved | sim/endowment.py:101-167 | over every run fees credited equal fees paid out plus fees outstanding |
| Endowment.FeeFlow | sim/endowment.py:101-167 | each step changes outstanding fees by what it credits and pays, partly refused settlements included |
| Endowment.UpdateOne | sim/endowment.py:158-166 | what changing one deployment does to the recomputed total, count and fees |
| Endowment.EndowmentContract.constructor | sim/endowment.py:45-49 | an empty contract |
| Endowment.EndowmentContract.InitializeAccount | sim/endowment.py:55-68 | state and reply are the specified ones, both errors included |
| Endowment.EndowmentContract.DeployCapital | sim/endowment.py:70-99 | state and reply are the specified ones; the cut is not bounded |
| Endowment.EndowmentContract.SettleFees | sim/endowment.py:101-130 | state and reply are the specified ones; a refusal midway keeps what was credited before it |
| Endowment.EndowmentContract.ClaimFees | sim/endowment.py:132-146 | state and reply are the specified ones, the four errors included |
| Endowment.EndowmentContract.WithdrawDeployment | sim/endowment.py:148-167 | state and reply are the specified ones, the three errors included |
| Endowment.EndowmentContract.GetActiveDeployments | sim/endowment.py:169-174 | the active deployments of a relayer in creation order |
| Endowment.EndowmentContract.GetTotalDeployed | sim/endowment.py:176-181 | the sum of the active capital of a relayer |
| LedgerLaws.InitExactly | sim/endowment.py:55-68 | each answer to opening an account and its cause, both directions; a new account is empty and active with its cut, everything else is unchanged |
| LedgerLaws.DeployExactly | sim/endowment.py:70-99 | each answer to a deployment and its cause; an accepted one gets the next id and its own fields, and exactly its account's two counters grow |
| LedgerLaws.SettleExactly | sim/endowment.py:101-130 | each answer to a fee settlement and its cause; only a refusal among the allocations leaves credits behind, an accepted one adds the total to the lifetime fees |
| LedgerLaws.CreditExactly | sim/endowment.py:115-127 | allocations are credited up to the first that is not in order: each deployment gains exactly what those give it |
| LedgerLaws.ClaimExactly | sim/endowment.py:132-146 | each answer to a claim and its cause; an accepted one pays exactly the deployment's fees and clears them |
| LedgerLaws.WithdrawExactly | sim/endowment.py:148-167 | each answer to a withdrawal and its cause; an accepted one returns amount and fees and undoes the account's counters |
| LedgerLaws.DeployWithdraw | sim/endowment.py:70-167 | withdrawing right after deploying returns the amount and restores every account; a second withdrawal fails |
| LedgerLaws.LotsExactly | sim/endowment.py:169-174 | the deployments that share in a split are exactly the relayer's live ones, with their ids, in creation order |
| Relayer.ConservesAlways | sim/relayer.py:117-154 | settling conserves whatever is pending if and only if the relayer has an active deployment and the cuts, weighted with the capital, average at most the precision or the precision is zero, when nothing is split |
| Relayer.SplitFits | sim/relayer.py:128-138 | the floored shares stay within every total if and only if the weighted cuts average at most the precision |
| Relayer.AllocationsBounded | sim/relayer.py:128-138 | with every cut within the precision the floored allocations never exceed the pending total |
| Relayer.SettleAccepts | sim/relayer.py:140-144 | the contract accepts every split the relayer builds |
| Relayer.SettleConserves | sim/relayer.py:117-154 | settling divides by zero if and only if there is something to split and no capital or no precision; it credits exactly what it hands out, touches no other relayer's pending fees, and conserves them if and only if nothing is pending or there is an active deployment and the handout fits |
| Relayer.AccruedConserved | sim/relayer.py:112-154 | over every run, direct settlements on the contract and cuts of any size included, what a relayer accrued, what was directly settled for it and what its settlements handed out beyond what was pending is pending, credited to its backers, or was dropped by a settlement that found no active deployment |
| Relayer.RunConserves | sim/relayer.py:112-154 | nothing is made or lost over a run if and only if no settlement of it hands out more than is pending |
| Relayer.FairRun | sim/relayer.py:112-154 | runs whose cuts are all within the precision never hand out more than is pending |
| Relayer.RunFunded | sim/endowment.py:84-85 | with a positive minimum every deployment of every run carries capital |
| Relayer.NeverDivides | sim/relayer.py:128-133 | with a positive minimum deployment and precision no settlement after any run divides by zero |
| Relayer.OvercutMints | sim/relayer.py:128-152 | a concrete deployment with a cut of twice the precision is accepted, and settling 100 credits 200 |
| Relayer.SumCapital | sim/relayer.py:129-129 | the capital of the active deployments |
| Relayer.SumFees | sim/relayer.py:141-141 | the total of the allocations |
| Relayer.CapitalDeployer.constructor | sim/relayer.py:108-110 | nothing is pending |
| Relayer.CapitalDeployer.AccumulateFees | sim/relayer.py:112-115 | the fee is added to what is pending for the relayer |
| Relayer.CapitalDeployer.SettlePending | sim/relayer.py:117-154 | contract state, pending fees and outcome are the specified ones on every path |
| LedgerLaws.SettlePendingExactly | sim/relayer.py:117-154 | the five ways a settlement of pending fees goes and the cause of each; the relayer keeps exactly what rounding left over whatever the contract answers, other relayers' fees stay |
| LedgerLaws.AllocationsExactly | sim/relayer.py:128-138 | one allocation per lot with a positive share, in order, with the lot's id and share |
| LedgerLaws.ShareExactly | sim/relayer.py:128-138 | a share is rounded down twice: the part of the total in proportion to the capital, then the cut of that part |
| Relayer.StakeSolvent | sim/relayer.py:30-84 | over every run of registering, locking, releasing and slashing, available stake is never negative |
| Relayer.ReleaseUndoesLock | sim/relayer.py:49-63 | releasing restores the record a successful lock changed |
| LedgerLaws.LockExactly | sim/relayer.py:49-57 | locking succeeds if and only if the amount times the ratio, rounded down, is available, and locks exactly that |
| LedgerLaws.ReleaseExactly | sim/relayer.py:59-63 | releasing unlocks the same product, but not below zero |
| LedgerLaws.SlashExactly | sim/relayer.py:65-79 | slashing takes the amount or what is left of the total, unlocks as much but not below zero, and is counted |
| LedgerLaws.RecordsExactly | sim/relayer.py:37-79 | registering starts a clean record even over an old one; the other operations change only the record they name and create none |
| Relayer.StakeManager.constructor | sim/relayer.py:33-35 | no records |
| Relayer.StakeManager.RegisterRelayer | sim/relayer.py:37-41 | the relayer's record is replaced by a fresh one |
| Relayer.StakeManager.LockStake | sim/relayer.py:49-57 | locks the covered amount, or refuses an unknown or short relayer and changes nothing |
| Relayer.StakeManager.ReleaseStake | sim/relayer.py:59-63 | unlocks the covered amount, never below zero |
| Relayer.StakeManager.SlashStake | sim/relayer.py:65-79 | slashes at most what is left and unlocks as much, never below zero |

## Left out

- Nonce search, the RandomX and blake2b functions themselves, wall-clock reads, log texts and printing: only injectivity and an arbitrary work value matter to the rules.
- Header fields that are neither hashed nor read by the modelled code, and the transaction bodies beyond reward and declared note value.
- The incremental chain's own competing-block and reorganisation methods, which do not rewind target, window or work; runs of successful connects only are modelled there.
- Commitment and nullifier maturity, which is one comparison of heights.
- Mining nodes, broadcast, synchronisation loops and the anchoring simulation, which only produce inputs for the modelled operations.
- Lexing of circuit text and infix expressions; circuits start as parsed statements of literals, names and calls, and literals are decimal.
- The two manifest files of the circuit checks, which become sets of free witnesses and excused comparisons.
- Shared coverage pools, the relayer main loop and the standard fee formula: settlement takes the fees and deployments they produce as given.
- Negative amounts and fees, and reuse of a deployment id; ids are positions in creation order.
- The rounding of the floating-point coverage ratio, which is a non-negative real here.
- The Halo 2 arithmetic, merge mining, the explorer and the simulation engine.
- Relayer.AllocationsBounded: assumes each cut is within the precision, because beyond it the bound fails; the exact condition is SplitFits.
- MedianTime.ValidateTimestamp: proved about the rule itself, because connecting a block does not call it.
