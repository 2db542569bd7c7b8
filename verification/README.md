# RdRand in Dafny

RdRand wraps the RDRAND instruction. It fills memory through retrying loops, can pass the bytes through
AES-CTR under a rotating key schedule, and drives everything from a multi-threaded generator that
encrypts one buffer while it fills the next. This project models four parts of the repository and proves
properties of them:

- **The library** (`Machine`, `Retry`, `MemoryFill`): the retry loops over a failing instruction, and the
  filling of an arbitrary address range as a head, aligned words and a tail.
- **The AES extension** (`CtrStream`, `AesSchedule`, `AesSupply`, `AesRuns`, `AesLifetime`, `AesReceiver`,
  `AesEncBuffer`, `AesConfig`): CTR mode (section 6.5 and appendix B of NIST SP 800-38A) fed in pieces, the
  byte budget and the key changes, how long a key lives, decryption across key changes, the key buffers
  rewritten in place through the current pointers, set-up and clean-up.
- **The generator** (`ChunkPlan`, `ParallelRound`, `RoundShortfall`, `WorkerFill`, `ChunkLoop`, `Pipeline`,
  `AesPipeline`, `Generator`, `KeyFile`, `KeyFileLines`): the cut into rounds and an ending, one parallel round under every
  interleaving of its threads, the thread-lowering loop and its two-buffer encryption pipeline, that
  pipeline with rdrand_enc_buffer in it, the whole run, and the key file.
- **The logging word reader** (`WordReader`): the sliding buffer over standard input and its log files.

Code that updates state is modelled by classes and methods that update the same state. Where a property
spans many calls, the method is proved to do exactly what a function on values does (for instance
`AesConfig.Aes.Counter` and `AesSchedule.Counter`, or `Generator.Engine.GenerateChunk` and `ChunkLoop.Loops`),
and the property is proved of that function over every run. Foreign parts are oracles, and every statement
holds for all of them: the stream of RDRAND attempts, the block cipher, what RAND_bytes yields or whether it
fails, how `fread` cuts its input and whether it fails, how much `fwrite` accepts, whether a log file opens,
whether the slow top-up of a round succeeds, the order in which threads take turns, and what the generator's
encryptor makes of a buffer.

What the proofs say about the code where its own documentation says otherwise:

- A key does not always live for at most MAX_COUNTER = 4096 bytes (src/librdrand-aes.h:48-63): the block
  that causes a key change is encrypted under the new key but not charged to it. With given keys it does
  exactly when every call meets `AesLifetime.KeepsLifetime`, a condition on the data under the key in use, the
  budget and the bytes served (`AesLifetime.LifetimeKept`, `AesLifetime.RunLifetime`); the first call after
  set-up meets it exactly up to 2 * MAX_COUNTER bytes (`AesLifetime.FirstCallLifetime`). With generated keys it
  does, whatever RAND_bytes yields, exactly when the whole run serves at most MAX_COUNTER bytes
  (`AesLifetime.GeneratedLifetime`, and `AesLifetime.GeneratedLifetimeSteady` for a RAND_bytes that never fails).
- What always holds is a bound of MAX_COUNTER + MAX_BUFFER_SIZE = 6144 bytes with given keys
  (`AesRuns.GivenKeyLifetime`, reached by `AesLifetime.LifetimeAttained`). With generated keys the same bound
  needs the draws of keys and nonces to succeed, not those of timers: the caller ignores the result of
  `counter`, so each failed key draw prolongs the life of the old key by up to as much again
  (`AesRuns.GeneratedKeyLifetime`, `AesRuns.KeyInstalled`), without bound (`AesLifetime.StaleKeyUnbounded`).
- `rdrand_enc_buffer` fails whenever charging a full buffer does not change the key. With given keys it
  succeeds exactly for fewer than 2048 bytes, or fewer than 4096 when the remaining budget is below 2048
  (`AesEncBuffer.EncBufferSucceeds`), with generated ones exactly when every full buffer meets a budget below
  2048 and both draws for its key succeed (`AesEncBuffer.GeneratedEncBufferSucceeds`); short buffers are never
  charged.
- `generate_chunk` ignores that failure. With given keys and n bytes to a round, every chunk is encrypted
  exactly if n < 2048, every third one if n < 4096, and none as a whole otherwise
  (`AesPipeline.ChunkEncrypted`, `AesPipeline.EveryChunkEncrypted`); with generated keys every chunk is,
  whatever RAND_bytes yields, exactly if n < 2048, or n < 4096 and there is just one chunk
  (`AesPipeline.GeneratedChunksEncrypted`). With given keys, from 4096 bytes on, what is written behind
  the first 2048 bytes of each round is always what the output buffer held before the loop, in every run
  (`AesPipeline.LargeChunksKeepOld`), and the first 2048 bytes are renewed only by every second write, from the
  third on (`AesPipeline.LargeChunkPattern`, `AesPipeline.LargeChunksRepeat`). Below 2048 bytes all writes
  together are one CTR message (`AesPipeline.SmallChunksOneStream`).
- `rdrand_get_bytes_retry` covers its range exactly when the part after the head is shorter than 2^32
  bytes (`MemoryFill.LayoutPartitions`), and its test for an already aligned start never succeeds: such a
  start gets a head of eight bytes.
- `generate_ending` returns the number of bytes generated, although nothing is written, when it falls
  short: it reports what it has written exactly when all of the ending or nothing of it was generated
  (`Generator.EndingReports`, and `Generator.EndingMisreports` for an input on which it does not).
- `load_key_line` stores a 65th digit behind its buffer of 64 exactly when the line starts with more than
  64 digits; it then always refuses the line (`KeyFile.LongLineRefused`). Keys of 8 bytes are accepted,
  but the cipher then reads past their end (`AesConfig.Aes.SetAesKeys`).
- `rdrand_clean_aes` does not reset its pointer to the cipher context: a second clean-up without a set-up in
  between frees the context again (`AesConfig.Aes.CleanAes`).

`dafny verify dfyconfig.toml` checks the project; as a whole it needs a resource limit of 2000000 per
member and no other option.

## Model

| member | source | states |
|---|---|---|
| Machine.LeWordOfLeBytes | src/librdrand.c:571 | a hardware word is recovered from its little-endian image, so a store loses nothing |
| Retry.RetryOnceIsFirstSuccess | src/librdrand.c:358-372 | a retry group ends at the first success, or after exactly max(1, limit) underflows |
| Retry.GetUint64Retry | src/librdrand.c:350-373 | the do-while loop makes exactly the attempts of that group, for every limit, negative ones meaning 10 |
| Retry.ArrayFillIsScan | src/librdrand.c:495-530 | the array fill is a scan: the values are the successes among the attempts consumed, in order; it falls short iff `limit` attempts in a row underflow, which are then the last ones; and the attempts are bounded by values times limit |
| Retry.ArrayFillStuck | src/librdrand.c:523-526 | after the first group that fails nothing more is attempted |
| Retry.SkipSpacing | src/librdrand.c:764-798 | saved words come in attempt order, each group starting exactly 1024 discarded attempts after the previous word, so word k is at attempt 1024*(k+1)+k or later |
| Retry.SkipStops | src/librdrand.c:764-798 | the fill falls short iff, right after 1024 discarded attempts, as many in a row underflow as a group may make; these are the last attempts made, and otherwise all words are saved |
| Retry.SkipBudget | src/librdrand.c:764-798 | it makes at most 1024 plus one group's attempts per word asked for |
| Retry.GetUint64ArrayReseedSkip | src/librdrand.c:764-798 | the array holds the words of that fill as a prefix, the generator has made exactly its attempts, and the other cells are untouched |
| MemoryFill.GetUint64ArrayRetry | src/librdrand.c:495-530 | memory changes by the little-endian images of the scan's words and nothing else, and the stores are at consecutive word addresses |
| MemoryFill.GetUint8ArrayRetry | src/librdrand.c:541-587 | the bytes stored are a prefix of the region: a truncated word, then whole words, nothing if the first word cannot be drawn |
| MemoryFill.ShortByteFill | src/librdrand.c:559-580 | a fill of up to eight bytes is one truncated hardware word |
| MemoryFill.ByteFillContent | src/librdrand.c:541-587 | a byte fill of any size is the words drawn in its attempts, the first one cut to size % 8 bytes; it ends early only after limit underflows in a row |
| MemoryFill.AlignMask | src/librdrand.c:638 | masking the address and adding 8 is the same as adding the offset |
| MemoryFill.LayoutPartitions | src/librdrand.c:620-647 | head, words and tail cover the range iff the part after the head fits an unsigned int; the words start 8-byte aligned for every start address; a range below 8 bytes is a tail only, and every other one has a head |
| MemoryFill.FillIsConfined | src/librdrand.c:598-671 | nothing outside the range is written, nor any cell no region reached; the count equals the size iff every byte was written |
| MemoryFill.FillRegions | src/librdrand.c:651-668 | each region is the successes of its own stretch of attempts, the stretches follow each other, and a later region is attempted also after an earlier one fell short |
| MemoryFill.FullFillContent | src/librdrand.c:651-668 | a complete fill holds the successive hardware words, the first and last one truncated |
| MemoryFill.FillIsFresh | src/librdrand.c:651-668 | a complete fill is made of the successive words of its own attempts alone |
| MemoryFill.FillComplete | src/librdrand.c:598-671 | a fill below 2^32 bytes is complete iff the hardware does not underflow limit times in a row in it |
| MemoryFill.SteadyFill | src/librdrand.c:598-671 | hardware that never underflows fills every range below 2^32 bytes completely |
| MemoryFill.GetBytesRetry | src/librdrand.c:598-671 | in place, the three regions are filled one after the other, later ones also after an earlier one fell short; every 64-bit store is 8-byte aligned |
| CtrStream.IncIsSuccessor | src/librdrand-aes.c:61-70 | the standard incrementing function adds one modulo 256^n |
| CtrStream.CounterBlocksDistinct | src/librdrand-aes.c:61-70 | the counter blocks of one message never repeat |
| CtrStream.CtrByte | src/librdrand-aes.c:438-454 | byte i of the output is byte i of the input XOR the keystream byte at its position |
| CtrStream.CtrInverts | src/librdrand-aes.c:438-454 | the same operation decrypts |
| CtrStream.EncryptUpdateIsCtr | src/librdrand-aes.c:424-463 | feeding a message to a context piece by piece, at any positions, is one-shot CTR with one contiguous keystream |
| AesSchedule.Timer | src/librdrand-aes.c:565-574 | a random budget never exceeds MAX_COUNTER and reaches it only for the largest draw |
| AesSchedule.TimerRoundsDown | src/librdrand-aes.c:571 | the budget is MAX_COUNTER times the draw's share of the largest value, rounded down |
| AesRuns.CounterKeeps | src/librdrand-aes.c:475-500 | a charge keeps the conservation law spent + remaining = granted + trigger, and the bytes about to be encrypted are always charged already |
| AesRuns.RunKeeps | src/librdrand-aes.c:408-464 | every run of calls, with any counts and any hardware, keeps the schedule, the budget law, the installed key and the stream invariant |
| AesRuns.GivenKeyLifetime | src/librdrand-aes.c:408-500 | in every run with given keys no installed key encrypts more than MAX_COUNTER + MAX_BUFFER_SIZE bytes |
| AesRuns.GeneratedKeyLifetime | src/librdrand-aes.c:408-500 | the same with generated keys times one more than the number of failed key draws, in every run; failed timer draws do not matter |
| AesRuns.KeyInstalled | src/librdrand-aes.c:484-500 | a charge that the budget does not cover installs a new key exactly when both draws for it succeed, and otherwise leaves the old one in use |
| AesRuns.DrawsMade | src/librdrand-aes.c:475-500 | with generated keys, the draws a charge makes, the budget it leaves, and what is in the slot after a failed draw |
| AesRuns.GivenCharge | src/librdrand-aes.c:475-500 | with given keys a charge the budget does not cover moves to the next slot, round robin, with a budget of 4096 bytes; one that is covered is only taken from the budget |
| AesLifetime.LifetimeKept | src/librdrand-aes.c:408-464 | with given keys, on any hardware, a call keeps every key within MAX_COUNTER bytes iff a condition on the data under the key, the budget and the bytes served holds before it; if it holds of the bytes asked for, that is enough |
| AesLifetime.RunLifetime | src/librdrand-aes.c:408-500 | over every run from set-up, on any hardware, iff that condition holds at each call |
| AesLifetime.FirstCallLifetime | src/librdrand-aes.c:408-464 | a first call keeps the documented lifetime iff it serves at most 2 * MAX_COUNTER bytes |
| AesLifetime.GeneratedLifetime | src/librdrand-aes.c:408-500 | with generated keys, on any hardware, the documented lifetime is kept for every outcome of RAND_bytes iff the whole run serves at most MAX_COUNTER bytes |
| AesLifetime.GeneratedLifetimeSteady | src/librdrand-aes.c:408-500 | on hardware that never underflows it is kept for everything a RAND_bytes that never fails may yield iff the whole run asks for at most MAX_COUNTER bytes |
| AesLifetime.LifetimeAttained | src/librdrand-aes.c:427-431 | one call for five full buffers reaches the bound of MAX_COUNTER + MAX_BUFFER_SIZE bytes |
| AesLifetime.StaleKeyUnbounded | src/librdrand-aes.c:488-498 | when no key can be drawn after set-up the first one encrypts all that any run serves |
| AesSupply.CallServed | src/librdrand-aes.c:427-462 | a call is served in full iff the hardware does not underflow limit times in a row in it |
| AesSupply.SupplyIsFresh | src/librdrand-aes.c:427-462 | what a call is supplied with is made of the successive words of its own attempts alone |
| AesRuns.CallIsOneStream | src/librdrand-aes.c:424-463 | within a key epoch a call's output is the bytes drawn XOR one contiguous stretch of keystream, and applying it again gives the drawn bytes back |
| AesReceiver.CallReceived | src/librdrand-aes.c:408-558 | a receiver in step decrypts a call's output to the bytes drawn, across key changes and also when the call fell short, and stays in step |
| AesReceiver.RunReceived | src/librdrand-aes.c:408-558 | over every run, from the counts and the outputs, all drawn bytes are recovered in order |
| AesReceiver.GivenRunReceived | src/librdrand-aes.c:408-558 | with given keys the initial slots are all the receiver needs |
| AesRuns.CallsCompose | src/librdrand-aes.c:424-463 | call(a) then call(b) equals call(a + b) in output and state when a is a multiple of the buffer size and is served in full |
| AesRuns.GivenSchedule | src/librdrand-aes.c:475-527 | after m full buffers the key has changed m/3 times, slot (m/3) % amount is in use, and each slot has been rewritten once per visit |
| AesRuns.VisitsClosedForm | src/librdrand-aes.c:518-522 | slot i >= 1 has been visited (k + amount - i)/amount times after k changes, slot 0 k/amount times |
| AesRuns.RotationContinuesStream | src/librdrand-aes.c:510-558 | a key change rewrites the next slot, and no other, with its encryption on the keystream behind the retired key's data, and this can be undone |
| AesRuns.EpochCountersDistinct | src/librdrand-aes.c:529-558 | no counter block is used twice under one installed key, neither for data nor for the rotation, as long as there are enough of them |
| AesRuns.EnoughCounters | src/librdrand-aes.c:475-500 | there are enough in every state of a run with fewer than 2^32 failed key draws in a row |
| AesEncBuffer.EncBufferSucceeds | src/librdrand-aes.c:345-388 | with given keys, success iff the buffer is shorter than 2048, or shorter than 4096 with less than 2048 of budget left |
| AesEncBuffer.GeneratedEncBufferSucceeds | src/librdrand-aes.c:345-388 | with generated keys, success iff every full buffer meets a budget below 2048, drawn with the key before, and both draws for its own key succeed |
| AesEncBuffer.LargeBufferRefused | src/librdrand-aes.c:351-371 | with given keys two full buffers or more are refused; the first one is stored iff the budget did not cover it, and nothing else |
| AesEncBuffer.MediumBuffer | src/librdrand-aes.c:351-384 | with given keys a buffer between one and two full ones is encrypted whole if the budget does not cover one, and else refused with nothing stored |
| AesEncBuffer.EveryBufferChangesKey | src/librdrand-aes.c:351-371 | in either mode, success means a key change for every full buffer |
| AesEncBuffer.ShortBufferContinuesStream | src/librdrand-aes.c:373-384 | a short buffer is encrypted where the current keystream stands and is not charged |
| AesEncBuffer.LongBufferStartsStream | src/librdrand-aes.c:351-384 | a longer buffer that succeeds is encrypted from the start of the next slot's keystream |
| AesEncBuffer.BufferContent | src/librdrand-aes.c:356-371 | in either mode, and also when the call is refused later, full buffer i in the destination is full buffer i of the source under the key begun for it, from the start of that key's keystream |
| AesEncBuffer.TailContent | src/librdrand-aes.c:373-384 | the rest of a successful call continues the stream of the last key begun |
| AesEncBuffer.GeneratedEpochs | src/librdrand-aes.c:356-371 | with generated keys the key and nonce of stored buffer i are the draws made for it |
| AesEncBuffer.GivenEpoch | src/librdrand-aes.c:356-371 | with given keys the key of a stored buffer is the next slot rewritten |
| AesConfig.AllowedKeyLengths | src/librdrand-aes.c:57-59 | between the length limits the powers of two are exactly 8 and 16 |
| AesConfig.Aes.KeyToOpenssl | src/librdrand-aes.c:61-74 | the current slot is installed in the context |
| AesConfig.Aes.KeysChangeRotation | src/librdrand-aes.c:532-558 | writing through the current pointers rewrites the current slot in place and no other |
| AesConfig.Aes.KeysChange | src/librdrand-aes.c:510-527 | the pointers move to the next slot and stay the buffers of slot `index` |
| AesConfig.Aes.KeyGenerate | src/librdrand-aes.c:580-595 | a failed second draw leaves the new key in its buffer but not installed |
| AesConfig.Aes.KeysRandomize | src/librdrand-aes.c:565-574 | a failed draw leaves the budget as it is |
| AesConfig.Aes.Counter | src/librdrand-aes.c:475-500 | does what AesSchedule.Counter does, on the real buffers, and keeps the alias invariant |
| AesConfig.Aes.GetBytesAesCtr | src/librdrand-aes.c:408-464 | the destination receives exactly the output of the value-level call as a prefix, the rest of it is untouched, and the count is its length |
| AesConfig.Aes.EncBuffer | src/librdrand-aes.c:345-388 | the destination receives exactly the bytes encrypted before the call stopped, and the rest of it is untouched |
| AesConfig.Aes.KeysAllocate | src/librdrand-aes.c:85-127 | succeeds iff the amount is positive and the length a power of two; then all buffers are new, zeroed, pairwise distinct and live, and the current pointers are slot 0; buffers held before are not freed |
| AesConfig.Aes.SetAesKeys | src/librdrand-aes.c:265-292 | succeeds iff there is a key and the length is 8 or 16; with 16 the slots hold the given keys and the nonces padded with zeros and the first is installed, with 8 the cipher would read past the copied keys |
| AesConfig.Aes.SetAesRandomKey | src/librdrand-aes.c:300-315 | succeeds iff both draws do, with those values installed |
| AesConfig.Aes.KeysFree | src/librdrand-aes.c:132-176 | every key and nonce buffer is wiped and freed exactly once, in slot order, and no pointer to one remains |
| AesConfig.Aes.CleanAes | src/librdrand-aes.c:323-332 | from any configuration the empty one is reached, with the same guarantee; the cipher context is freed again iff it has been freed since the last set-up |
| ChunkPlan.PlanExact | src/rdrand-gen.c:226-233 | the remainder by the product of chunk size, count and threads takes out exactly one multiple of it, and the count is at least one |
| ChunkPlan.PlanLargest | src/rdrand-gen.c:215-254 | the chunk size is the largest one up to 2048 words of which every thread can fill one; below 2048 there is one round at most |
| ChunkPlan.PlanCoversAmount | src/rdrand-gen.c:215-254 | rounds and ending add up to the amount for every amount and thread count; the ending is less than one round |
| ChunkPlan.Config.ComputeChunkSize | src/rdrand-gen.c:215-254 | from the default configuration the fields become that plan: the largest chunk size, all rounds it needs, and the rest as the ending |
| ParallelRound.IndexInjective | src/rdrand-gen.c:515 | chunks of different threads do not overlap |
| ParallelRound.HitSlot | src/rdrand-gen.c:510-518 | a turn that draws a word stores it inside its own thread's chunk, in a slot not stored before in this round |
| ParallelRound.RunKeeps | src/rdrand-gen.c:501-528 | every interleaving of the threads keeps the round's invariant |
| ParallelRound.RoundConserves | src/rdrand-gen.c:499-532 | for every interleaving, `written` is the number of words drawn; it is the round's size iff every slot was stored; then the multiset of words drawn is the multiset in the chunks |
| ParallelRound.EncryptionIsolated | src/rdrand-gen.c:519-526 | for every complete interleaving the encrypted buffer is the encryption of what the previous round left |
| ParallelRound.IdleRound | src/rdrand-gen.c:511 | the draining pass draws nothing |
| WorkerFill.TurnIsStep | src/rdrand-gen.c:510-518 | a turn of a thread in a round is a turn on its own chunk alone |
| WorkerFill.WorkerIsGetBytes | src/rdrand-gen.c:437-453 | a thread left to itself makes the attempts of rdrand_get_bytes_retry on its chunk, counts the same words and leaves the same bytes in it |
| RoundShortfall.AdvanceTracks | src/librdrand.c:504-527 | a thread's state reflects its own attempts: it leaves a hole in its chunk for good exactly when RETRY_LIMIT of them in a row have underflowed |
| RoundShortfall.RoundFallsShort | src/rdrand-gen.c:508-532 | for every interleaving and hardware, a finished round has generated everything iff no thread underflowed RETRY_LIMIT times in a row |
| ChunkLoop.BooksRun | src/rdrand-gen.c:497-618 | in every run, each pass advances n, costs a thread or ends the loop; write k takes what fwrite accepts of chunk size times the threads left, only the last write may be short, and the total is what was accepted |
| ChunkLoop.PassBound | src/rdrand-gen.c:497-583 | every run makes at most chunk_count + aes + threads - 1 passes |
| ChunkLoop.TeamKept | src/rdrand-gen.c:532-583 | all threads are kept, and the loop does not end for want of one, exactly when no pass falls short without a successful top-up |
| ChunkLoop.FallsShort | src/rdrand-gen.c:532 | the round of a pass falls short exactly when it is to generate and one of its threads gives up |
| ChunkLoop.AmountExact | src/rdrand-gen.c:605-618 | a loop that is left has written every chunk at full width iff no thread was lost and no write was short |
| Pipeline.FinishedRound | src/rdrand-gen.c:499-532 | what a finished round amounts to in terms of the buffers before and after |
| Pipeline.PassIsLossless | src/rdrand-gen.c:497-617 | a complete pass draws chunk n while chunk n - 1 is encrypted and written: the two swapped buffers are a queue of one |
| Pipeline.PipelineInOrder | src/rdrand-gen.c:462-619 | when no round falls short and no write fails, every chunk is drawn, handed to the encryptor and followed by a write exactly once and in order, the k-th write being what the encryptor's k-th call leaves in the buffer, for any encryptor; and the chunks hold exactly the words the hardware supplied |
| Pipeline.PassEncrypts | src/rdrand-gen.c:519-526 | in every pass, whether or not its round falls short, the output buffer becomes what the encryptor makes of the previous chunk |
| Pipeline.HandedOver | src/rdrand-gen.c:497-617 | in every pass of every run with encryption, whatever falls short or is topped up: the encryptor is handed the previous buffer, which begins with the chunk drawn last, and so the same chunk again after a thread was lost; what is written begins the encryptor's output; a round that does not fall short adds the words it drew |
| AesPipeline.EncryptedMemory | src/rdrand-gen.c:525 | the encryptor instantiated with rdrand_enc_buffer stores exactly the bytes that function has encrypted when it stops |
| AesPipeline.ChunkEncrypted | src/rdrand-gen.c:519-526 | with given keys, call k succeeds iff a round is below 2048 bytes, or below 4096 and k % 3 is 2 |
| AesPipeline.EveryChunkEncrypted | src/rdrand-gen.c:519-526 | with given keys every call succeeds iff a round is below 2048 bytes or there are no chunks |
| AesPipeline.GeneratedChunksEncrypted | src/rdrand-gen.c:519-526 | with generated keys every call succeeds for everything RAND_bytes may yield iff a round is below 2048 bytes, or below 4096 and the only one, or there are no chunks |
| AesPipeline.LargeChunksKeepOld | src/rdrand-gen.c:519-605 | with given keys and rounds of 4096 bytes or more, in every run, all words written behind the first 2048 bytes are those the output buffer held at the start |
| AesPipeline.LargeChunkPattern | src/rdrand-gen.c:519-526 | with such rounds only every second call, from the third on, stores anything: the first 2048 bytes under a new key |
| AesPipeline.LargeChunksRepeat | src/rdrand-gen.c:519-605 | an undisturbed pipeline with such rounds writes the old buffer twice, and every second write repeats the one before |
| AesPipeline.SmallChunksOneStream | src/rdrand-gen.c:519-605 | with rounds below 2048 bytes and either kind of key an undisturbed pipeline writes one CTR message: the drawn words XOR one contiguous keystream |
| Pipeline.ChunksExact | src/rdrand-gen.c:462-619 | the whole amount of the chunks is written iff no pass loses a thread and one fwrite call per chunk accepts all of it |
| Pipeline.SteadyRounds | src/rdrand-gen.c:497-532 | on hardware that never underflows no round of any run falls short |
| Pipeline.PlainWrites | src/rdrand-gen.c:605 | without encryption a whole write holds exactly the words drawn in its own pass, also after threads were lost |
| Pipeline.PlainShort | src/rdrand-gen.c:532-605 | without encryption a round that falls short writes nothing and is run again, or, topped up, is written as the top-up left it |
| Generator.Threads.Complete | src/rdrand-gen.c:504-528 | the parallel loop in place, for any order of turns, ends in a finished round reached by those turns |
| Generator.EndingReports | src/rdrand-gen.c:628-662 | the ending reports what it has written iff all of it or nothing was generated, and its full size iff it was generated and accepted whole |
| Generator.EndingMisreports | src/rdrand-gen.c:634-640 | an ending of nine bytes on hardware that yields one word: eight bytes are reported and none written |
| Generator.EndingContent | src/rdrand-gen.c:628-662 | a whole ending reaches the file as the first bytes of its own attempts' successive words, or with encryption as what the encryptor makes of each of them |
| Generator.EndingComplete | src/rdrand-gen.c:633-640 | the ending is generated whole iff its size fits an unsigned int and no RETRY_LIMIT attempts for it underflow in a row |
| Generator.GenerateExact | src/rdrand-gen.c:670-683 | never more than the amount is reported; the report is what is written plus what was generated of an ending that fell short; it is exactly the amount iff no pass loses a thread, every fwrite call accepts all it is given, and the ending fits and meets no run of underflows |
| Generator.GenerateSteadily | src/rdrand-gen.c:670-683 | on hardware that never underflows, with fwrite accepting everything, exactly the amount is reported and written iff the ending's size fits an unsigned int |
| Generator.Engine.ParallelFor | src/rdrand-gen.c:499-528 | the round of a pass in place, for some complete order of turns that continues the given one |
| Generator.Engine.LowerThreads | src/rdrand-gen.c:567-583 | one thread fewer and nothing else: the buffer size stays chunk size times threads, and n-- followed by n++ in unsigned arithmetic repeats the same n, also at 0 |
| Generator.Engine.Pass | src/rdrand-gen.c:497-617 | one pass in place is ChunkLoop.Pass on the loop's whole state, the file included |
| Generator.Engine.GenerateChunk | src/rdrand-gen.c:462-619 | the loop terminates, its final state is that of an execution on values, the file grows by the words its writes accepted, and it returns 8 times their number |
| Generator.Engine.GenerateEnding | src/rdrand-gen.c:628-662 | fills, encrypts and writes the ending in place: the file grows by the bytes Generator.EndingContent describes if all of it was generated, by nothing otherwise; what is returned is the number accepted, or in the second case the number generated |
| Generator.Engine.Generate | src/rdrand-gen.c:670-683 | the file grows by the words the chunk execution's writes accepted and then by the ending's fresh or encrypted bytes; the result is their number, plus what was generated of an ending that fell short; with the exact conditions above for reporting and writing the whole amount |
| KeyFile.BytesOfHex | src/librdrand-aes.c:75-81 | printing bytes as hexadecimal and scanning them gives them back |
| KeyFile.HexToByte | src/rdrand-gen.c:186-205 | converts iff there are two digits per byte |
| KeyFile.LoadKeyLine | src/rdrand-gen.c:772-822 | reads one line: two thirds of its digits are the key, one third the nonce, with the code's errors in the code's order; a cell behind the code's line buffer is stored to iff the line starts with more than 64 digits |
| KeyFile.LongLineRefused | src/rdrand-gen.c:788-790 | such a line is always refused |
| KeyFile.ReadKeys | src/rdrand-gen.c:694-744 | the loop over the lines collects the keys of the whole file in order, or the first error |
| KeyFile.PrintedFileParses | src/rdrand-gen.c:694-822 | any list of keys and nonces printed one pair per line, with blank lines anywhere, is read back in full and in order |
| KeyFile.KeyFileRoundTrip | src/rdrand-gen.c:694-760 | such a file configures exactly these keys and nonces, the nonces padded with zeros |
| KeyFile.LoadKeys | src/rdrand-gen.c:694-760 | for every file: with 16-byte keys they are installed, with 8-byte keys the cipher reads past them, and otherwise the code's error is returned and no configuration installed; the code stores behind its arrays iff more than 128 keys are read |
| KeyFileLines.HexAlphabet | src/rdrand-gen.c:783-787 | the characters accepted are the digits of both alphabets |
| KeyFileLines.HexValues | src/rdrand-gen.c:192 | a digit stands for its position in its alphabet |
| KeyFileLines.BytesAt | src/rdrand-gen.c:191-203 | byte i of a run of digits is the value of its i-th pair, the first digit counting 16 |
| KeyFileLines.ParseGoodLines | src/rdrand-gen.c:706-744 | lines that are blank or 3 * m digits for one m from 4 to 21 are read before anything behind them: the first 2 * m digits are the key, the last m the nonce, which is left alone for an odd m |
| KeyFileLines.FileOutcome | src/rdrand-gen.c:694-822 | such lines followed by a first fault: more than 65 digits in a row are a bad length, another character after at most 65 of them an invalid character, a number of digits that is not a multiple of three, a key of fewer than four bytes or of another length than the first one a bad length; a last line without a newline is not read as a key |
| KeyFileLines.EveryFile | src/rdrand-gen.c:694-822 | each text has such a shape, and so one of these outcomes |
| WordReader.AssembleIsBigEndian | tests/TestU01_raw_stdin_input_with_log.c:415-422 | the shifted bytes form the big-endian number, and each byte can be read back from it |
| WordReader.Reader.constructor | tests/TestU01_raw_stdin_input_with_log.c:244-259 | the buffer has room for a read and a word, and the invariant holds |
| WordReader.Reader.BufToFile | tests/TestU01_raw_stdin_input_with_log.c:288-312 | the file holds the input up to what fread delivered exactly when fwrite takes everything; it stays open exactly then and before the end of input |
| WordReader.Reader.ReadMore | tests/TestU01_raw_stdin_input_with_log.c:346-368 | reading in arbitrary pieces continues the input without gap or repetition, within the buffer; it falls short only at the end of input or after a read error |
| WordReader.Reader.FillBuf | tests/TestU01_raw_stdin_input_with_log.c:320-374 | rewinding and refilling keeps the invariant, the log included |
| WordReader.Reader.GetUnsignedInt | tests/TestU01_raw_stdin_input_with_log.c:383-432 | the word returned is the next four input bytes, most significant first, or the program exits |
| WordReader.Reader.Bits | tests/TestU01_raw_stdin_input_with_log.c:441-457 | appends one word to those returned, or ends the run |
| WordReader.Reader.EndTest | tests/TestU01_raw_stdin_input_with_log.c:463-518 | the code's assertion about the byte counts holds; the new file starts with the unread bytes |
| WordReader.Session | tests/TestU01_raw_stdin_input_with_log.c:441-518 | any run of word reads and resets keeps the invariant and returns as many words as were asked for or, without read errors, as there are; it gives up for want of data iff more were asked for, and for want of a log file iff one does not open |
| WordReader.ReaderRefinesStream | tests/TestU01_raw_stdin_input_with_log.c:320-432 | in every reachable state the values are the first words of the input; without read errors exactly floor(size / 4) are returned before the failure exit |
| WordReader.LogMirrorsInput | tests/TestU01_raw_stdin_input_with_log.c:288-312 | in every reachable state an open log holds the bytes consumed since the last reset followed by the unread ones, and its length is 4 times the words plus the unread size |

## Left out

- The RDRAND instruction, cpuid, OpenSSL and OpenMP internals, memory locking, delays, file opening and
  locking, argument parsing and messages: foreign calls or user interface.
- ChunkLoop.RunAgain: the slow top-up with one thread left (src/rdrand-gen.c:545-566) is an oracle that fails or leaves any contents in the buffer, because it mixes byte and word units in its pointer and length; stores of it outside the buffer are not modelled.
- Generator.Engine.GenerateChunk: only for a requested amount; the unlimited mode does not terminate. It also asks for chunk_count + 1 < 2^32, since the loop counter is an unsigned int.
- Pipeline.PipelineInOrder: with encryption and after a thread reduction the chunks no longer fill the buffers, because the code goes on encrypting and swapping at the old width; `Pipeline.HandedOver` states what is handed over, encrypted and written then.
- Generator.Engine.Generate: only the GET_BYTES method; the two reseeding methods cannot fill an ending whose size is not a multiple of 8.
- Generator.Engine: the encryptor of the ending is any function of position and byte.
- AesConfig.Aes.SetAesKeys: with key length 8, which the manual does not support (man/rdrand-gen.7:55), the model ends with the copied keys: what lies behind them and is used as the rest of the key is unknown. malloc is taken to succeed.
- AesConfig.Aes.EncBuffer: the source is read as a value when the call begins, so a source that shares memory with the destination is not modelled.
- KeyFile.LoadKeyLine: the line buffer has one cell more than the code's, so that the store behind it can be stated.
- KeyFile.LoadKeys: the arrays of 128 entries are sequences, so what the stores behind them overwrite for a file with more keys, which the manual excludes (man/rdrand-gen.7:51), is not modelled; nor are the key and nonce buffers that the code does not free on an error or a blank line.
- EVP_EncryptUpdate and EVP_CipherInit_ex are taken to succeed; only RAND_bytes may fail.
- rdrand_get_uint16_retry, rdrand_get_uint16_array_retry, rdrand_get_uint32_array_retry, rdrand_get_uint64_array_reseed_delay and rdrand_fwrite: they repeat the loops modelled here.
- The 32-bit wrap-around of the word reader's and the log's counters, which are unbounded integers here.
- The throughput benchmark, the TestU01 batteries and the build files.
