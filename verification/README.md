# The mDNS stack of QtZeroConf in Dafny

The repository carries a copy of the avahi mDNS/DNS-SD stack and of Apple's TXT record library. This
project models their data structures, their wire codec and their protocols, in the form the source
has: what is updated in place is a class with fields or an array, what is only computed is a
function, and every loop is a loop proved against a specification. `dafny verify dfyconfig.toml`
checks all of it.

| part | files |
|---|---|
| strings and names | `Bytes`, `Utf8`, `Labels`, `Domain`, `Normalizer`, `ServiceNames`, `AlternativeNames` |
| names on the wire, with compression | `NameCodec`, `NameDecoder`, `NameChain`, `NameRollback`, `NameTable` |
| records and packets | `Records`, `StringLists`, `RecordRoundTrip`, `RecordSession`, `Packet`, `PacketReader`, `RecordIdent` |
| timers | `PrioQueue`, `Timeval`, `TimeEvents`, `TimeEventRuns` |
| schedulers | `ResponseSpec`, `ResponseRuns`, `ResponsePackets`, `ResponseScheduler`, `JobLists`, `QueryScheduler`, `KnownAnswers`, `ProbePackets`, `ProbeScheduler` |
| probing and announcing | `AnnounceTrace`, `Announcers`, `RecordOrder`, `TieBreak` |
| answering legacy queries | `LegacyResponses` |
| cache | `HashMap`, `Cache`, `CacheExpiry` |
| TXT records | `TxtRecord`, `TxtReading` |

## Main results

- **Codec** (sections 3.1, 3.2.1 and 4.1.4 of RFC 1035). Whatever mix of accepted and refused records
  is appended to a packet, a reader consumes exactly the accepted ones. It rests on one invariant,
  that every entry of the suffix table points at bytes that decode to its key, which survives every
  append, every failure and every rollback.
- **Timers.** The heap of linked nodes keeps all its redundant links through every rewiring; on top
  of it events of equal expiry are served round robin, over every history of calls of the queue,
  those made from callbacks too.
- **Probing and announcing** (sections 8.1 and 8.3 of RFC 6762). Three probes precede every
  announcement of a record that must be probed, and a group is established only when nothing in it
  is being probed. Of two hosts that probe for the same key (section 8.2) exactly the one with the
  smaller maximum gives way.
- **Schedulers.** One job per record or question, each flagged for the list it is on, and sends of the
  same thing 500, 100 and 150 ms apart, over all runs; for responses with the one exception that the
  code makes, stated for every querier. Known answers (section 7.2 of RFC 6762) are split without
  loss. A packet of probes asks for every record in it, and the room it keeps is enough for them.
- **Cache.** The index by key agrees with the flat list after every operation, on a hash table that
  refines a finite map; refreshes follow the schedule of section 5.2 of RFC 6762.
- **Worklist, TXT records, service and alternative names.** A least closure, a map with keys compared
  without case, and two round trips.

## What the code does not do

Each of these is proved with the condition that decides it.

- The decoder gives up after 127 steps, labels and pointers together (`NameRoundTrip`, exact). Names of
  up to 63 labels always come back; for every name of 64 to 127 there is a packet in which it is
  written and cannot be read (`LongNameRejected`), and longer ones, which can be written
  (`LongNameWritten`), never come back (`VeryLongNameRejected`).
- `avahi_dns_packet_append_name` alone is no rollback: if a pointer does not fit behind labels already
  written, they stay (`FailedNameRestores`, exact; `FailedNameKeepsBytes`). Both its callers restore
  the packet.
- `avahi_dns_packet_consume_key` reads names into 256 bytes, so a longer question cannot be read back
  (`KeyComesBack`, exact; `LongKeyLost`). A TTL of 2^32 - 1 is stored as 4500 (`TtlKept`, exact;
  `UnsetTtlLost`).
- `avahi_normalize_name` ignores an escape that does not fit, and may leave a buffer without a NUL
  (`NormalizeFits`, exact). `avahi_service_name_join` does so with two buffers of 1014 bytes, and
  `avahi_service_name_split` takes domain labels that start with an underscore for type labels: a
  service name comes back exactly if neither happens (`ServiceRoundTrip`; `LongDomainLost`,
  `UnderscoredDomainLost`).
- The estimate for a question is a byte short. If the estimates fill a packet of probes to the last
  byte, no room is kept for the record that is asked for (`RoomKept`, exact). Otherwise every chosen
  record goes out (`AllChosenSent`), but then others may crowd the due record out of its own packet
  (`DueCrowdedOut`, exact for a family); and a probe on its own for a name of a single
  character is given up as too large (`AloneExactly`, exact).
- A post overrides a history job, and is sent within half a second, if that job gave less
  (`PostExcused`, exact).
- The alternative of a name that is not valid UTF-8 may fail an assertion (`AlternativeExactly`, exact;
  `StrayByteFails`).
- `avahi_timeval_add` leaves some sums unnormalized (`AddConserves`, exact; `AddNotNormalized`).
- A group counts a probing announcer whose interface goes away for ever (QtZeroConf/avahi-core/announce.c:37-48):
  the counter is the number of probing announcers and of those lost, so a group that lost one is not
  established before it is reset (`Announcers.Announcer.NextState`).
- The flag not to announce is ignored for a record that is probed: it is released or announced with
  the others (`Announcers.Announcer.PassOn`).
- Of two blocks of rdata of which one begins with the other, the shorter one is the later, unlike
  section 8.2 of RFC 6762 (QtZeroConf/avahi-core/rr.c:545-548). It is a total order all the same.
- `TXTRecordSetValue` has removed the old value by the time it fails for lack of room (`SetValue`,
  exact; `FullRecordLoses`). A search key with an equals sign behind a good key hits another key's
  item, and no other search key does (`SafeKeys`, exact; `OddKeyHits`).

## Conventions

Characters of C strings are bytes without the final NUL; an `unsigned` of 16 or 32 bits is a bounded
number where it goes over the wire or is hashed, and unbounded elsewhere. Times are microseconds, or
seconds and microseconds where the source computes with them. The clock, random jitter, the interfaces
of the host, whether a record has a browser and what a cache walk finds for a query are parameters.
Every call reads the clock once, so a timer and the time stamp beside it agree to the microsecond.
Ghost logs record what is sent. Fields and predicates that only serve proofs are ghost.

## Model

| member | source | states |
|---|---|---|
| Utf8.Validate | QtZeroConf/avahi-common/utf8.c:49-110 | the loop with its running value and minimum accepts exactly the valid strings |
| Utf8.ValidExactly | QtZeroConf/avahi-common/utf8.c:30-110 | the valid strings are exactly the encodings of sequences of code points that are no surrogates and no non-characters: no overlong form, nothing cut short |
| Utf8.EncodedValid | QtZeroConf/avahi-common/utf8.c:49-110 | no two sequences of code points have the same encoding: decoding gives the sequence back |
| Utf8.ValidConcat | QtZeroConf/avahi-common/utf8.c:49-110 | behind a valid string, validity is that of the rest |
| Labels.UnescapeLabel | QtZeroConf/avahi-common/domain.c:41-113 | the cursor loop over its buffer returns the label, its NUL and the rest of the name that the scanner specifies, and fails exactly on bad escapes, too little room or bad UTF-8 |
| Labels.EscapeLabel | QtZeroConf/avahi-common/domain.c:116-165 | the buffer gets the escaped label and a NUL behind what was there, exactly if both fit; otherwise the escapes in front of the one that does not fit, and no NUL; nothing before or behind changes |
| Labels.ScanEscape | QtZeroConf/avahi-common/domain.c:41-165 | unescaping inverts escaping for every label, whatever follows it |
| Labels.LabelsOfJoin | QtZeroConf/avahi-common/domain.c:41-165 | reading the presentation form of a list of labels gives the list back |
| Domain.NormalizeNormal | QtZeroConf/avahi-common/domain.c:172-217 | a normalized name is in normal form, and normalizing it again changes nothing |
| Domain.NormalizeSpelled | QtZeroConf/avahi-common/domain.c:172-217 | a name already spelled in normal form is either left alone or rejected because a label is not a good one |
| Normalizer.NormalizeName | QtZeroConf/avahi-common/domain.c:172-217 | for a buffer of any size: the text left in it, whether a NUL stands behind it, and when it fails or an assertion does, are as specified |
| Normalizer.NormalizeFits | QtZeroConf/avahi-common/domain.c:172-217 | the buffer holds the normal form and its NUL exactly if they fit; and nothing is left for a name without a normal form |
| Normalizer.LeftIs | QtZeroConf/avahi-common/domain.c:172-217 | what is left where they do not fit are the labels of the name, each cut short to some length |
| Domain.EqualLabelsFold | QtZeroConf/avahi-common/domain.c:229-252 | comparing names label by label is equality of the label lists up to letter case |
| Domain.EqualNamesHashEqual | QtZeroConf/avahi-common/domain.c:229-252 | equality of normal names is an equivalence, and equal names hash alike |
| Domain.HashLabelsFold | QtZeroConf/avahi-common/domain.c:424-438 | the hash does not depend on letter case |
| NameCodec.AppendReads | QtZeroConf/avahi-core/dns.c:168-234 | a name written with compression reads back as its labels over at most as many pointers as it has labels, and the suffix table stays sound |
| NameCodec.AppendGrows | QtZeroConf/avahi-core/dns.c:168-234 | writing a name only adds table entries for new suffixes, at offsets inside what it wrote; also when it stops half way |
| NameCodec.ReadsExtend | QtZeroConf/avahi-core/dns.c:346-420 | bytes appended later change nothing a name already reads as |
| NameDecoder.DecodeReads | QtZeroConf/avahi-core/dns.c:346-420 | where the bytes read as a list of labels, the bounded decoder gives exactly its presentation form, or fails because the steps or the buffer run out |
| NameDecoder.DecodeSound | QtZeroConf/avahi-core/dns.c:346-420 | conversely, whatever the decoder returns for any bytes is the spelling of labels the bytes read as, within its bound |
| NameDecoder.ExtentAppend | QtZeroConf/avahi-core/dns.c:346-430 | the decoder leaves the read index exactly behind the bytes of the name |
| NameDecoder.AppendSoundTable | QtZeroConf/avahi-core/dns.c:168-234 | every entry of the suffix table points at a place that decodes to its key, before and after any append |
| NameDecoder.NameRoundTrip | QtZeroConf/avahi-core/dns.c:168-430 | decoding what was written gives the name back exactly when labels plus pointers stay below 127 and the buffer holds it; always for up to 63 labels |
| NameChain.ChainLinked | QtZeroConf/avahi-core/dns.c:168-234 | for any list of up to 127 labels there is a packet whose names hang together by one pointer per label |
| NameChain.LongNameRejected | QtZeroConf/avahi-core/dns.c:346-420 | in such a packet every name of 64 to 127 labels is written and then rejected by the decoder: 63 is the exact bound |
| NameChain.VeryLongNameRejected | QtZeroConf/avahi-core/dns.c:346-420 | a name of 127 labels or more is rejected wherever it was written |
| NameChain.LongNameWritten | QtZeroConf/avahi-core/dns.c:168-234 | a new packet takes any name whose labels it has room for, however many |
| NameRollback.SweepUndoes | QtZeroConf/avahi-core/dns.c:156-166 | sweeping the table of entries at or above a size undoes every entry made since |
| NameRollback.AppendShape | QtZeroConf/avahi-core/dns.c:168-234 | what an append leaves behind: the labels up to the first suffix that is known or does not fit, then a pointer or a NUL |
| NameRollback.FailedNameRestores | QtZeroConf/avahi-core/dns.c:168-234 | a failed append_name leaves the size unchanged exactly unless at least one label was written and only the pointer behind it does not fit |
| NameRollback.FailedNameKeepsBytes | QtZeroConf/avahi-core/dns.c:193-202 | a name for which the early return leaves its first label in the packet |
| Packets.Packet.AppendName | QtZeroConf/avahi-core/dns.c:168-234 | the loop over the packet writes what the specification says, and on its early return keeps what it says |
| Packets.Packet.Restore | QtZeroConf/avahi-core/dns.c:229-233 | size and table are those of the state to go back to |
| Packets.Packet.ValidInside | QtZeroConf/avahi-core/dns.c:168-234 | every entry of the suffix table of a sound packet points inside the packet, as the assertion of append_name asks |
| Packets.Packet.AppendKeyTo | QtZeroConf/avahi-core/dns.c:689-707 | a question is appended whole or the packet and its table are exactly as before, on every failure; with a portable name the packet stays sound, and the question is consumed again as itself or, from 256 characters on, rejected |
| Packets.Packet.AppendRecordTo | QtZeroConf/avahi-core/dns.c:784-821 | a record is appended whole, with its length patched in, or size, content and table are exactly as before; with a portable record the packet stays sound, and the record is consumed again as itself |
| Packets.Packet.AppendRdata | QtZeroConf/avahi-core/dns.c:710-782 | each kind of rdata is written as specified, with names compressed against the table |
| Packets.Packet.ConsumeLabels | QtZeroConf/avahi-core/dns.c:346-420 | the pointer-chasing loop with its cursor and buffer computes the bounded decoder and its extent |
| PacketReader.ConsumeName | QtZeroConf/avahi-core/dns.c:422-430 | the name and the index behind it |
| PacketReader.ParseRdata | QtZeroConf/avahi-core/dns.c:523-620 | every kind of rdata is parsed as specified, and fails on short or bad data |
| PacketReader.ConsumeRecordFrom | QtZeroConf/avahi-core/dns.c:622-659 | a record, its flush bit and the index behind it, or nothing |
| PacketReader.ConsumeKeyFrom | QtZeroConf/avahi-core/dns.c:661-687 | a question, its unicast bit and the index behind it, or nothing |
| StringLists.ReverseNodes | QtZeroConf/avahi-common/strlst.c:118-129 | the links of the nodes are turned around in place: from the old last node on they are a chain of the same nodes in reverse |
| StringLists.SerializedSize | QtZeroConf/avahi-common/strlst.c:213-230 | the sizing pass computes the length of what the writing pass writes |
| StringLists.SerializeInto | QtZeroConf/avahi-common/strlst.c:168-211 | the writing pass puts into the buffer, of any size, the strings first added first, each cut to what is left, and a lone zero byte for nothing |
| StringLists.SerializedWhole | QtZeroConf/avahi-common/strlst.c:168-232 | the list is written whole exactly if the size is at least what the sizing pass returns |
| StringLists.ParseList | QtZeroConf/avahi-common/strlst.c:69-106 | parsing computes the specified list or fails |
| RecordRoundTrip.StringListRoundTrip | QtZeroConf/avahi-common/strlst.c:69-232 | parsing a serialized string list gives the list back |
| RecordRoundTrip.DataRoundTrip | QtZeroConf/avahi-core/dns.c:523-782 | rdata of every type, with compressed names in it, is parsed back as itself, ends where it was written to end, and keeps the table sound |
| RecordRoundTrip.RecordComesBack | QtZeroConf/avahi-core/dns.c:622-821 | a valid record of any type comes back with equal key, capped TTL, flush bit and rdata, the read index ends at its end, whatever follows |
| RecordRoundTrip.KeyComesBack | QtZeroConf/avahi-core/dns.c:661-707 | a question comes back exactly if its name has fewer than 256 characters |
| RecordRoundTrip.LongKeyLost | QtZeroConf/avahi-core/dns.c:661-707 | a question for five labels of sixty letters, 304 characters, is written and cannot be read |
| RecordRoundTrip.KeyStaysSound | QtZeroConf/avahi-core/dns.c:689-707 | a question leaves the suffix table sound |
| RecordRoundTrip.TtlKept | QtZeroConf/avahi-core/dns.c:622-821 | a record comes back with its own TTL exactly if that is neither capped nor 2^32 - 1 |
| RecordRoundTrip.UnsetTtlLost | QtZeroConf/avahi-core/rr.c:96-114 | a record of TTL 2^32 - 1 comes back with 4500 |
| Records.AppendRecordWithin | QtZeroConf/avahi-core/dns.c:784-821 | an appended record takes at least ten bytes and stays inside the packet |
| Records.DecodedNormalizes | QtZeroConf/avahi-core/dns.c:346-430 | a decoded name is rejected by normalizing only for a label that is not a good one |
| RecordSession.RunReadable | QtZeroConf/avahi-core/dns.c:784-821 | over any run of accepted and refused appends, a reader consumes exactly the accepted records in order and ends at the end of the packet |
| RecordIdent.RecordEqualIdent | QtZeroConf/avahi-core/rr.c:366-416 | equality of records without TTL is equality of identities, hence an equivalence |
| RecordIdent.EqualKeysHashEqual | QtZeroConf/avahi-core/rr.c:323-364 | equal keys have equal hashes |
| PrioQueues.PrioQueue.GetNodeAtXy | QtZeroConf/avahi-core/prioq.c:55-76 | walking down the bits of x finds the node at level order place (x, y) |
| PrioQueues.PrioQueue.ExchangeNodes | QtZeroConf/avahi-core/prioq.c:78-256 | tree links, chain, coordinates, root and last of the two nodes are traded in every relative position, and the list of nodes is the old one with the two exchanged |
| PrioQueues.PrioQueue.Shuffle | QtZeroConf/avahi-core/prioq.c:258-288 | from a heap with one misplaced node, sifting up and then down restores heap order and every link, with the same nodes |
| PrioQueues.PrioQueue.Put | QtZeroConf/avahi-core/prioq.c:290-338 | the whole representation holds again and the nodes are the old ones and the new one |
| PrioQueues.PrioQueue.Remove | QtZeroConf/avahi-core/prioq.c:340-387 | the whole representation holds again and the nodes are the old ones without the one removed |
| PrioQueues.HeapLeast | QtZeroConf/avahi-core/prioq.c:258-288 | the root is a least element |
| PrioQueues.MoveUp | QtZeroConf/avahi-core/prioq.c:258-268 | a step up moves the only misplaced node to its parent |
| PrioQueues.MoveDown | QtZeroConf/avahi-core/prioq.c:270-287 | a step down to the smaller child moves the only misplaced node there |
| PrioQueues.ChangedDatum | QtZeroConf/avahi-core/prioq.c:258-288 | changing one datum misplaces at most that node |
| PrioQueues.NextPlace | QtZeroConf/avahi-core/prioq.c:300-327 | the place behind (x, y) in level order is a child of (x/2, y-1) on the side of the low bit of x |
| PrioQueues.WalkStep | QtZeroConf/avahi-core/prioq.c:55-76 | each bit of x, from the top, picks the child whose index is that of its column |
| PrioQueues.RemoveAlmost | QtZeroConf/avahi-core/prioq.c:340-387 | taking the last node into the gap leaves a heap but for that node |
| Timeval.CompareMicros | QtZeroConf/avahi-common/timeval.c:30-47 | comparing normalized times is comparing their microseconds |
| Timeval.DiffExact | QtZeroConf/avahi-common/timeval.c:49-57 | the difference is that of the microseconds |
| Timeval.AddConserves | QtZeroConf/avahi-common/timeval.c:59-74 | adding conserves the total, and normalizes exactly unless the microseconds sum to a negative whole number of seconds |
| Timeval.AddNotNormalized | QtZeroConf/avahi-common/timeval.c:65-67 | a sum that is left unnormalized |
| Timeval.AddDiff | QtZeroConf/avahi-common/timeval.c:49-74 | adding the difference of two times arrives at the other, where the sum is normalized |
| TimeEvents.TimeEventQueue.ArmedAtLeast | QtZeroConf/avahi-core/timeeventq.c:66-74 | between calls the timeout is armed at a least expiry |
| TimeEvents.TimeEventQueue.New | QtZeroConf/avahi-core/timeeventq.c:161-201 | one more event with its expiry, never run; the timeout is armed for the new least |
| TimeEvents.TimeEventQueue.Free | QtZeroConf/avahi-core/timeeventq.c:203-213 | one event less; the timeout is armed for the new least or off |
| TimeEvents.TimeEventQueue.Update | QtZeroConf/avahi-core/timeeventq.c:215-224 | the event has its new expiry, the others theirs, and the timeout fits |
| TimeEvents.TimeEventQueue.Dispatch | QtZeroConf/avahi-core/timeeventq.c:76-95 | a callback is due exactly if some event is, and then for one that is least in expiry and ran longest ago; that event alone changes, in its last run |
| TimeEvents.TimeEventQueue.UpdateTimeout | QtZeroConf/avahi-core/timeeventq.c:66-74 | whatever the callback did to the queue, the timeout fits again |
| TimeEventRuns.RoundRobin | QtZeroConf/avahi-core/timeeventq.c:48-103 | over any run with a strictly increasing clock, between two services of one event every event of equal expiry that stays queued is served |
| TimeEventRuns.History.New | QtZeroConf/avahi-core/timeeventq.c:161-201 | adding an event is a step of a run |
| TimeEventRuns.History.Free | QtZeroConf/avahi-core/timeeventq.c:203-213 | freeing an event is a step of a run |
| TimeEventRuns.History.Update | QtZeroConf/avahi-core/timeeventq.c:215-224 | moving an event is a step of a run |
| TimeEventRuns.History.Dispatch | QtZeroConf/avahi-core/timeeventq.c:76-95 | serving an event is a step of a run, and serving none is no step |
| TimeEventRuns.History.Rearm | QtZeroConf/avahi-core/timeeventq.c:96-103 | after the calls of the callback, which are steps themselves, the queue is as it is between calls |
| TimeEventRuns.ServedSince | QtZeroConf/avahi-core/timeeventq.c:76-103 | an event served in a run keeps having been served at least as late |
| TimeEventRuns.Unserved | QtZeroConf/avahi-core/timeeventq.c:76-103 | an event that stays and is not served keeps its expiry and last run |
| ResponseScheduler.Scheduler.PostJob | QtZeroConf/avahi-core/response-sched.c:347-427 | post does to the three lists what its specification says, suppression and history included |
| ResponseScheduler.Scheduler.IncomingRecord | QtZeroConf/avahi-core/response-sched.c:429-465 | incoming drops the job another host has answered, and remembers the answer |
| ResponseScheduler.Scheduler.SuppressRecord | QtZeroConf/avahi-core/response-sched.c:467-503 | suppress drops the job of that querier and remembers it |
| ResponseScheduler.Scheduler.SendResponsePacket | QtZeroConf/avahi-core/response-sched.c:217-263 | a packet takes the due job, its auxiliary records and further jobs while they fit; alone in a larger packet, or done unsent, when it fits none; ANCOUNT is the number of jobs sent |
| ResponsePackets.SendHolds | QtZeroConf/avahi-core/response-sched.c:138-263 | the packet holds exactly the records of the jobs sent, the due one first, and exactly these are logged as sent |
| ResponsePackets.ResponseReadable | QtZeroConf/avahi-core/response-sched.c:138-263 | a receiver that reads as many records as ANCOUNT says reads exactly those, with their flush bits |
| ResponseSpec.AddJobGrows | QtZeroConf/avahi-core/response-sched.c:200-263 | every job added makes the packet longer, so filling it ends |
| ResponseSpec.PostKeeps | QtZeroConf/avahi-core/response-sched.c:347-427 | posting never loses a scheduled job |
| ResponseRuns.PostInv | QtZeroConf/avahi-core/response-sched.c:347-427 | post keeps the invariant: at most one job per record on the scheduled and history lists together, one suppressed job per record and querier, list and state flag in agreement, sends remembered |
| ResponseRuns.IncomingInv | QtZeroConf/avahi-core/response-sched.c:429-465 | incoming keeps the invariant |
| ResponseRuns.SuppressInv | QtZeroConf/avahi-core/response-sched.c:467-503 | suppress keeps the invariant |
| ResponseRuns.SendStepInv | QtZeroConf/avahi-core/response-sched.c:217-263 | sending a packet keeps the invariant |
| ResponseRuns.PostExcused | QtZeroConf/avahi-core/response-sched.c:347-427 | a post, for whatever querier or none, overrides a history job exactly if the querier has not shown that it knows the record, and the job, half a second old at most, differs in goodbye status, has a TTL below half of that asked, or lacks a flush bit that is asked |
| ResponseRuns.RunInv | QtZeroConf/avahi-core/response-sched.c:77-503 | the invariant holds after every run of operations with a clock that does not go back; packet limit and auxiliary records may differ from send to send |
| ResponseRuns.LocalSendsSpaced | QtZeroConf/avahi-core/response-sched.c:138-427 | over every run, two local sends of an equal record are at least 500 ms apart, unless between them a post for it asked for more than a history job gave that was half a second old at most |
| JobLists.Scheduler.Post | QtZeroConf/avahi-core/query-sched.c:354-391 | refused exactly while the same thing was sent or heard within the span; otherwise the job there is due at the earlier time with one more poster, or there is a new one |
| JobLists.Scheduler.FindHistoryJob | QtZeroConf/avahi-core/query-sched.c:329-352 | finds the job that still holds back the thing, and forgets one that is too old |
| JobLists.Scheduler.Incoming | QtZeroConf/avahi-core/query-sched.c:393-416 | what another host asks is not asked: no job stays scheduled for it and the history holds it back from now on |
| JobLists.Scheduler.WithdrawById | QtZeroConf/avahi-core/query-sched.c:418-450 | the job with the id has one poster less, and goes exactly with its last; no other job changes |
| JobLists.Scheduler.JobMarkDone | QtZeroConf/avahi-core/query-sched.c:136-149 | the job moves to the history as of now, with its flag |
| JobLists.Scheduler.JobFree | QtZeroConf/avahi-core/query-sched.c:104-118 | a job is unlinked from the list that its flag names, and that is the list it is on |
| JobLists.Scheduler.HistoryElapsed | QtZeroConf/avahi-core/query-sched.c:273-287 | a history job goes when its timer fires |
| JobLists.MarkDoneKeeps | QtZeroConf/avahi-core/probe-sched.c:115-128 | marking a job done keeps one job per thing on both lists together, every flag naming the list its job is on, and every send at least the span after whatever was sent or heard before |
| JobLists.ScheduleKeeps | QtZeroConf/avahi-core/probe-sched.c:368-403 | scheduling what is on neither list keeps all that |
| JobLists.ForgetKeeps | QtZeroConf/avahi-core/probe-sched.c:343-366 | forgetting a history job whose time is up keeps all that |
| JobLists.AmendKeeps | QtZeroConf/avahi-core/probe-sched.c:381-389 | moving a job to an earlier time keeps all that |
| JobLists.RenewKeeps | QtZeroConf/avahi-core/query-sched.c:408-416 | hearing a question again keeps all that |
| JobLists.NoteKeeps | QtZeroConf/avahi-core/query-sched.c:408-416 | hearing a question for the first time keeps all that |
| JobLists.WithdrawKeeps | QtZeroConf/avahi-core/query-sched.c:418-450 | withdrawing a job keeps all that |
| QueryScheduler.NewQueryScheduler | QtZeroConf/avahi-core/query-sched.c:151-169 | a new scheduler is empty and has the span and the delay of 100 ms |
| QueryScheduler.QueryElapsed | QtZeroConf/avahi-core/query-sched.c:212-311 | one packet asks the due question and then the others from the head until one does not fit; exactly those leave the list, and the known answers of all of them follow; every question asked was last asked or heard at least 100 ms ago |
| QueryScheduler.AskAllReadable | QtZeroConf/avahi-core/query-sched.c:212-311 | a receiver reads exactly the questions asked, in order |
| KnownAnswers.AppendKnownAnswersAndSend | QtZeroConf/avahi-core/query-sched.c:228-271 | the nested loops end and send what the specification says |
| KnownAnswers.SendAllCorrect | QtZeroConf/avahi-core/query-sched.c:228-271 | the packets hold the answers that are kept, each once and in order, ANCOUNT equals the answers held, and TC is set on every packet but the last |
| KnownAnswers.FittingKept | QtZeroConf/avahi-core/query-sched.c:228-271 | an answer that fits an empty packet is kept |
| KnownAnswers.SentReadable | QtZeroConf/avahi-core/query-sched.c:228-271 | a receiver consumes exactly the answers each packet holds |
| ProbePackets.QuestionHasRoom | QtZeroConf/avahi-core/probe-sched.c:176-193 | although the key estimate is a byte short, the question fits: the assertion behind it holds; room for the record is kept exactly unless the estimates fill the packet and the question takes that byte |
| ProbePackets.RoomKept | QtZeroConf/avahi-core/probe-sched.c:165-291 | each chosen record has its estimate reserved exactly if that happens to none of the questions |
| ProbePackets.AssembledIs | QtZeroConf/avahi-core/probe-sched.c:165-291 | the due question comes first, every chosen record is asked for by a question, the room kept is at most what the estimates of the chosen say, and asking stops only at a job there is no room for |
| ProbePackets.TakeIs | QtZeroConf/avahi-core/probe-sched.c:297-318 | the chosen records are appended in list order up to the first that append_record refuses, and exactly the jobs of those appended leave the list |
| ProbePackets.TakeConserves | QtZeroConf/avahi-core/probe-sched.c:297-318 | no job is lost or doubled |
| ProbePackets.AllChosenSent | QtZeroConf/avahi-core/probe-sched.c:165-325 | in a packet below 0x4000 bytes in which that happens to no question, every chosen record goes out, the due one too |
| ProbePackets.DueCrowdedOut | QtZeroConf/avahi-core/probe-sched.c:165-325 | for any size of data there is a packet, filled by the estimates to the last byte, that goes out without the due record, exactly if its name has fewer than 18 characters |
| ProbePackets.AloneSent | QtZeroConf/avahi-core/probe-sched.c:242-279 | a probe on its own is sent whenever its name has three characters |
| ProbePackets.AloneExactly | QtZeroConf/avahi-core/probe-sched.c:242-279 | without a name in its data it is sent exactly unless its name is a single character |
| ProbeScheduler.NewProbeScheduler | QtZeroConf/avahi-core/probe-sched.c:130-147 | a new scheduler is empty and has the span of 150 ms and the delay of 50 ms |
| ProbeScheduler.AddProbeQuery | QtZeroConf/avahi-core/probe-sched.c:165-221 | the scan asks the question and chooses the records as specified; refused exactly if the estimates exceed the space left |
| ProbeScheduler.AskTheRest | QtZeroConf/avahi-core/probe-sched.c:281-293 | the second loop asks the further questions as specified and counts them |
| ProbeScheduler.AddRecords | QtZeroConf/avahi-core/probe-sched.c:295-318 | the third loop appends and removes exactly what is specified, logs each as sent now, and no job that stays remains marked as chosen |
| ProbeScheduler.ProbeAlone | QtZeroConf/avahi-core/probe-sched.c:242-279 | the packet for this probe alone, or none when it fits that neither; the job is done either way, and logged as sent exactly if there is a packet |
| ProbeScheduler.ProbeElapsed | QtZeroConf/avahi-core/probe-sched.c:223-325 | the whole callback: which of the two packets, its content and both counts, the jobs left, the history and the log; every record probed for was last probed for at least 150 ms ago |
| ProbeScheduler.ProbePacketSound | QtZeroConf/avahi-core/probe-sched.c:165-325 | the ordinary packet holds its questions, the due one first, and then exactly the records of the jobs that left the list, each asked for by one of the questions, the first chosen ones in list order and all of them unless one does not fit |
| AnnounceTrace.ThreeProbes | QtZeroConf/avahi-core/announce.c:120-149 | an uninterrupted probing phase posts exactly three probes |
| AnnounceTrace.ProbesFirst | QtZeroConf/avahi-core/announce.c:111-176 | nothing is announced that has probes left to send: an announcement after a start of probing comes behind three probes and their end |
| AnnounceTrace.AllAnnounced | QtZeroConf/avahi-core/announce.c:150-176 | an uninterrupted announcing phase sends three announcements, or four when the group was established without the shortcut, with the delay doubling from one second |
| Announcers.Announcer.NextState | QtZeroConf/avahi-core/announce.c:111-176 | a timer step keeps every invariant of the group; the group leaves its state only from registering to established, with no announcer probing and none lost while probing; registering without anyone probing does not persist |
| Announcers.Announcer.PassOn | QtZeroConf/avahi-core/announce.c:120-138 | probing ends in waiting exactly in a registering group and in announcing otherwise, whatever the flags; the group is then established, or somebody in it still probes |
| Announcers.Announcer.FinishProbing | QtZeroConf/avahi-core/announce.c:122-138 | the probing counter is positive where it is decremented, and goes down by one |
| Announcers.Announcer.GoToInitialState | QtZeroConf/avahi-core/announce.c:198-229 | the phase follows from flags and group state, counted if it is probing |
| Announcers.Announcer.Reannounce | QtZeroConf/avahi-core/announce.c:417-467 | the phase restarts as specified; counter and progress are kept |
| Announcers.Announcer.ReturnToInitialState | QtZeroConf/avahi-core/announce.c:339-353 | back to the start with the counter right; progress is kept unless the flags no longer ask for the probing that was going on |
| Announcers.Announcer.Announce | QtZeroConf/avahi-core/announce.c:150-176 | one announcement, recorded with the state of the group, and the next delay or the end |
| Announcers.Entry.NewAnnouncer | QtZeroConf/avahi-core/announce.c:231-260 | one announcer per matching announcing interface once the entry is committed, and never two |
| Announcers.Entry.AnnounceOn | QtZeroConf/avahi-core/announce.c:287-293 | afterwards every announcing interface that matches has an announcer |
| Announcers.Entry.RemoveAnnouncer | QtZeroConf/avahi-core/announce.c:37-48 | the announcer is gone and the group goes on counting it if it was probing |
| Announcers.Entry.Leave | QtZeroConf/avahi-core/announce.c:494-510 | the entry has no announcer on the interface left, and all its others |
| Announcers.Entry.Update | QtZeroConf/avahi-core/entry.c:232-266 | new flags, and every announcer on the interfaces walked restarted in the phase that follows from its old one if the record changed; no other announcer changes |
| Announcers.Entry.Withdraw | QtZeroConf/avahi-core/server.c:154-182 | an entry takes its whole group down: all announcers gone, counter zero, collision |
| Announcers.Group.CheckProbed | QtZeroConf/avahi-core/announce.c:71-109 | a registering group with counter zero becomes established and every waiting announcer is released; otherwise nothing changes |
| Announcers.Group.CommitReal | QtZeroConf/avahi-core/entry.c:1114-1126 | every live entry is announced on every matching interface, and the group is established exactly if nothing is being probed |
| Announcers.Group.Commit | QtZeroConf/avahi-core/entry.c:1139-1174 | refused for a group in progress or without entries; otherwise registration starts now or is put off, a second (twenty after fifteen tries) after the last one |
| Announcers.Group.HoldoffOver | QtZeroConf/avahi-core/entry.c:1128-1137 | when the holdoff is over registration starts |
| Announcers.Group.Reset | QtZeroConf/avahi-core/entry.c:1176-1193 | no announcer left, counter zero, uncommitted, every entry dead |
| Announcers.Group.Withdraw | QtZeroConf/avahi-core/server.c:165-177 | no announcer left, counter zero, collision, every entry dead |
| Announcers.Group.AddEntry | QtZeroConf/avahi-core/entry.c:227-229 | entries are only added to a group that is neither registering nor established |
| Announcers.Group.Knows | QtZeroConf/avahi-core/announce.c:111-176 | every announcer of a group in order has kept the law of its steps and, while the flags of its entry stay, announced only when the group was established; the counter is never below the number probing and positive while any is |
| Announcers.Group.ValidAgain | QtZeroConf/avahi-core/announce.c:111-467 | one announcer moving on and being counted keeps the group in order: the counter is the number of probing announcers and of those taken away while probing, waiting means registering, and with unchanged flags announcing means established |
| RecordOrder.BinaryDomainCmp | QtZeroConf/avahi-core/domain-util.c:147-169 | the loop compares the label lists |
| RecordOrder.CompareCode | QtZeroConf/avahi-core/rr.c:534-650 | the comparison of records is the dictionary order of one number sequence per record; of two blocks of which one begins with the other the shorter is the greater |
| RecordOrder.CompareOrder | QtZeroConf/avahi-core/rr.c:534-650 | the comparison is a total order: antisymmetric, transitive, zero exactly for equal codes |
| RecordOrder.CompareZero | QtZeroConf/avahi-core/rr.c:555-650 | zero exactly for records that are the same but for name and TTL |
| TieBreak.Host.IncomingProbe | QtZeroConf/avahi-core/server.c:196-239 | the loop withdraws the rrset exactly if the record is not an own one, beats an own one being probed and is beaten by none |
| TieBreak.Host.HearProbes | QtZeroConf/avahi-core/server.c:628-646 | the records of a query take effect one by one |
| TieBreak.LosesToGreater | QtZeroConf/avahi-core/server.c:196-239 | a host probing all its records gives way exactly to records above its maximum |
| TieBreak.MaximumExists | QtZeroConf/avahi-core/rr.c:555-650 | every rrset has a maximum |
| TieBreak.ExactlyOneWithdraws | QtZeroConf/avahi-core/server.c:184-239 | of two hosts probing for one key, the one with the smaller maximum withdraws all its records and the other keeps all of them; with equal maxima both keep them |
| LegacyResponses.RecordList.Push | QtZeroConf/avahi-core/rrlist.c:139-162 | a record already known, read or not, is not pushed again; another goes first on the unread list, and the list asks for a flush throughout exactly if it does too |
| LegacyResponses.RecordList.Next | QtZeroConf/avahi-core/rrlist.c:97-120 | the head of the unread list moves to the read list |
| LegacyResponses.AppendAux | QtZeroConf/avahi-core/server.c:54-103 | exactly the auxiliary records become known |
| LegacyResponses.AuxiliaryIdent | QtZeroConf/avahi-core/server.c:54-103 | what is auxiliary to a record depends on neither TTL nor letter case |
| LegacyResponses.GenerateLegacyResponse | QtZeroConf/avahi-core/server.c:367-395 | the loop ends although it pushes while it pops, pops exactly the least set closed under the additional-record relation, each record once, and the reply is what appending those one by one makes of it |
| HashMaps.HashMap.Lookup | QtZeroConf/avahi-core/hashmap.c:114-123 | the value the map has for the key |
| HashMaps.HashMap.Insert | QtZeroConf/avahi-core/hashmap.c:125-153 | the map gets the pair unless it has one for an equal key |
| HashMaps.HashMap.Replace | QtZeroConf/avahi-core/hashmap.c:156-187 | the map has the new key and the new value, for an equal key as well |
| HashMaps.HashMap.Remove | QtZeroConf/avahi-core/hashmap.c:189-198 | the map is without the key, and bucket and list are without its slot |
| HashMaps.HashMap.Foreach | QtZeroConf/avahi-core/hashmap.c:200-210 | every pair of the map is visited exactly once |
| HashMaps.HashMap.ForeachRemoving | QtZeroConf/avahi-core/hashmap.c:200-210 | a callback may remove the pair it is called for: every pair is visited all the same, and exactly those removed are gone |
| NameTables.Find | QtZeroConf/avahi-core/dns.c:183-187 | looking a suffix up in the hash table gives the offset of the map, if there is one |
| NameTables.RememberName | QtZeroConf/avahi-core/dns.c:212-219 | a new suffix enters the table, one that is known keeps its offset |
| NameTables.CleanupNameTable | QtZeroConf/avahi-core/dns.c:156-166 | the loop over the hash table that removes from it leaves exactly the suffixes below the size |
| Caches.KeysAgree | QtZeroConf/avahi-core/cache.c:67-91 | the equality and the hash the cache hands to its table agree |
| Caches.AgreesWithout | QtZeroConf/avahi-core/cache.c:35-65 | after an entry is taken from the list and from its chain, every chain is again the listed entries with an equal key, under the key of its head |
| Caches.AgreesWith | QtZeroConf/avahi-core/cache.c:353-358 | the same after a new entry is put first on the list and its chain |
| Caches.AgreesRetaken | QtZeroConf/avahi-core/cache.c:321-333 | the same after an entry takes another record with an equal key |
| Caches.MatchingChain | QtZeroConf/avahi-core/cache.c:114-144 | for a key that is no pattern, the chain is what a scan of the whole list finds, in the same order |
| Caches.Cache.RemoveEntry | QtZeroConf/avahi-core/cache.c:35-65 | list, index, counter and uniqueness hold again without the entry |
| Caches.Cache.Update | QtZeroConf/avahi-core/cache.c:276-371 | goodbye: an equal record expires in a second. Update: the entry for the record is refreshed or created first on the list, unless the cache is full; on a flush every other entry of the key older than a second expires in a second; nothing else changes; index, counter and limit hold |
| Caches.Cache.Walk | QtZeroConf/avahi-core/cache.c:114-144 | the entries a key or pattern matches, as a scan of the list would find them |
| Caches.Cache.LookupRecord | QtZeroConf/avahi-core/cache.c:146-162 | the entry with an equal record, if there is one |
| Caches.Cache.EntryElapsed | QtZeroConf/avahi-core/cache.c:166-224 | the entry moves to its next stage and percentage with a query if subscribed, or is removed |
| Caches.Cache.StartPoof | QtZeroConf/avahi-core/cache.c:442-492 | exactly the matching entries observe one more unanswered query, with its querier if it counts, and expire in a second with the last one |
| Caches.Cache.StopPoof | QtZeroConf/avahi-core/cache.c:494-513 | the observed entry for the record and querier is valid again with a new schedule |
| Caches.Cache.Flush | QtZeroConf/avahi-core/cache.c:433-438 | nothing is left |
| CacheExpiry.Band | QtZeroConf/avahi-core/cache.c:236-264 | an expiry lies between its percentage of the TTL and two percent more |
| CacheExpiry.FourRefreshes | QtZeroConf/avahi-core/cache.c:166-264 | an undisturbed entry has strictly increasing expiries in the bands from 80, 85, 90, 95 and 100 percent, exactly four refresh chances, and is due for removal between its TTL and 1.02 times that |
| CacheExpiry.GivenUpLate | QtZeroConf/avahi-core/cache.c:442-485 | an entry is given up only after five unanswered queries over at least four seconds |
| TxtRecords.InternalSearch | QtZeroConf/bonjour-sdk/dnssd_clientlib.c:67-86 | the scan finds the first item that answers to the key, for any bytes |
| TxtRecords.SearchFinds | QtZeroConf/bonjour-sdk/dnssd_clientlib.c:67-86 | on a built record it finds where the item with the key begins |
| TxtRecords.FindKey | QtZeroConf/bonjour-sdk/dnssd_clientlib.c:67-86 | a search key that does not look like an item finds its item, in whatever case, and nothing if there is none |
| TxtRecords.TxtRecord.SetValue | QtZeroConf/bonjour-sdk/dnssd_clientlib.c:197-240 | a good pair that fits takes the place of what was there for the key; a bad one changes nothing; one that fits no buffer fails, and the old value is gone |
| TxtRecords.TxtRecord.RemoveValue | QtZeroConf/bonjour-sdk/dnssd_clientlib.c:242-257 | the item that answers to the key is moved over, the others stay in order |
| TxtRecords.SetMap | QtZeroConf/bonjour-sdk/dnssd_clientlib.c:197-240 | setting is an update of the map of keys, without regard to case, and of no other key |
| TxtRecords.DroppedMap | QtZeroConf/bonjour-sdk/dnssd_clientlib.c:242-257 | removing takes the key out of the map and no other |
| TxtReading.ReadBack | QtZeroConf/bonjour-sdk/dnssd_clientlib.c:268-292 | for every search key but those that look like an item: it is contained exactly if the map has it, and the value read is the one set; no value and an empty value are told apart |
| TxtReading.GetValue | QtZeroConf/bonjour-sdk/dnssd_clientlib.c:279-292 | where the value lies in the bytes |
| TxtReading.GetCount | QtZeroConf/bonjour-sdk/dnssd_clientlib.c:294-305 | the number of items if their lengths end with the data, else zero; the 16-bit counter does not overflow |
| TxtReading.CountBuilt | QtZeroConf/bonjour-sdk/dnssd_clientlib.c:294-305 | a built record counts its items: their lengths sum to the length of the data |
| TxtReading.GetItemAtIndex | QtZeroConf/bonjour-sdk/dnssd_clientlib.c:307-344 | the item of that number in any bytes, or why there is none |
| TxtReading.ItemsReadBack | QtZeroConf/bonjour-sdk/dnssd_clientlib.c:307-344 | on a built record every item is read back by its number |
| TxtReading.SafeKeys | QtZeroConf/bonjour-sdk/dnssd_clientlib.c:67-86 | reading agrees with the map on all built records exactly for the search keys that do not have an equals sign behind a good key within 254 bytes |
| TxtReading.OddKeyHits | QtZeroConf/bonjour-sdk/dnssd_clientlib.c:67-86 | every other search key hits the item of another key |
| TxtReading.FullRecordLoses | QtZeroConf/bonjour-sdk/dnssd_clientlib.c:197-240 | a record of 65284 bytes in which a key cannot be given a value of 252 bytes, and is lost |
| ServiceNames.ServiceRoundTrip | QtZeroConf/avahi-common/domain.c:440-573 | splitting a joined service name gives back name, normalized type and normalized domain exactly if both fit the buffers of 1014 bytes they go through, and the first domain label does not start with an underscore |
| ServiceNames.LongDomainLost | QtZeroConf/avahi-common/domain.c:440-478 | a valid domain of 304 characters whose normal form has 1204, and does not come back |
| ServiceNames.UnderscoredDomainLost | QtZeroConf/avahi-common/domain.c:496-573 | an underscored domain does not come back |
| ServiceNames.JoinServiceName | QtZeroConf/avahi-common/domain.c:440-478 | the join over its own two buffers and that of the caller: its code, and the joined name cut to the buffer with its NUL |
| ServiceNames.SplitServiceInto | QtZeroConf/avahi-common/domain.c:496-573 | splitting into buffers succeeds exactly if the name can be taken apart and type and domain fit theirs; the name is cut to its own |
| ServiceNames.SplitServiceName | QtZeroConf/avahi-common/domain.c:496-573 | the state machine over its three buffers, of any size, computes that split or fails as it does |
| ServiceNames.FullLabels | QtZeroConf/avahi-common/domain.c:440-478 | the joined name reads as the labels of its parts, also with a dot at its end |
| AlternativeNames.DropIncompleteUtf8 | QtZeroConf/avahi-common/alternative.c:34-49 | it leaves the longest valid prefix and overwrites only bytes with their high bit set, or its assertion fails, as specified |
| AlternativeNames.CleanedExactly | QtZeroConf/avahi-common/alternative.c:34-49 | the assertion fails exactly if an ASCII character stands behind the longest valid prefix |
| AlternativeNames.CutCleaned | QtZeroConf/avahi-common/alternative.c:34-49 | wherever a valid string is cut, the assertion holds |
| AlternativeNames.StrayByteFails | QtZeroConf/avahi-common/alternative.c:34-49 | a string for which it fails |
| AlternativeNames.AlternativeServiceName | QtZeroConf/avahi-common/alternative.c:117-182 | the scans and the building compute the specified alternative of any string, valid or not |
| AlternativeNames.AlternativeExactly | QtZeroConf/avahi-common/alternative.c:117-182 | a name within the length limit is refused an alternative, by the failing assertion, exactly if an ASCII character stands behind the longest valid prefix of what is kept; never if it is valid |
| AlternativeNames.NextAlternative | QtZeroConf/avahi-common/alternative.c:117-182 | the alternative of a valid service name is one again, and its counter is the next |
| AlternativeNames.NeverRepeats | QtZeroConf/avahi-common/alternative.c:117-182 | trying one alternative after the other never comes back to a name tried before, while the counter is an int |

## Left out

- Integer overflow of node counts, coordinates, job ids and iteration counters, and of the register try counter.
- Running out of memory, logging, reference counts, and callbacks into the user's code, except that those of timers are any further calls of the queue.
- Linked lists are sequences from the head on, except in the priority queue and where a string list is reversed: links of jobs, entries and announcers are not modelled as pointers.
- The per-interface list of announcers: going through an interface's announcers is going through each entry's announcers on that interface.
- Dead groups and their delayed cleanup, goodbye records and the withdrawal of other groups through a shared key.
- The suffix table inside class Packet is a map; what is done to it is proved on the hash table in NameTables, with offsets for pointers.
- The headers of packets beyond the counts named above, and packet reservation outside of probes.
- `avahi_response_scheduler_force`, which sends every job at once: it is repeated sending.
- The branch of `avahi_server_generate_response` for multicast replies, conflict handling for responses, and reflection.
- Alternative host names: their truncation may cut an escape in two.
- String comparison of the C library beyond the sign of its result; rounding of the jitter computed in floating point.
- Normalizer.NormalizeName: the buffer has at least a byte, and labels are read as bytes up to their NUL; what a caller reads behind a missing NUL is not modelled.
- ServiceNames.JoinServiceName: a call that would read a buffer without a NUL has no further result than that.
- ProbePackets.AllChosenSent: equal names are spelled alike, and a record with a name in its data has two characters in its own name at least; the estimates of others may be a byte short.
- ProbePackets.AloneExactly: speaks of data without a name in it and of no HINFO; AloneSent covers those from three characters on.
- AlternativeNames.AlternativeServiceName: requires a counter below the largest int, beyond which `atoi` is undefined.
- TieBreak.ExactlyOneWithdraws: speaks of hosts all of whose records under the key are being probed, as the source only weighs those.
- Announcers.Announcer.ReturnToInitialState: keeps progress only while the flags still ask for probing; the source does not look for a group that became complete this way.
- ResponseScheduler.Scheduler.SendResponsePacket: packet, records and timers are values, and the auxiliary records of a record are a function, another one for every send.
- Browsers, resolvers, wide-area lookups, sockets, event loops, the J2534 wrapper and the windows: wiring, or calls into libraries.
