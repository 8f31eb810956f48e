# theauth-go: verified core

A Dafny model of the parts of theauth-go whose correctness rests on an argument rather than on
a glance at the code, with proofs over every input, every run or every reachable state:

- **Policy engine** (`policy/`): the backtracking glob matcher, glob-escaped `{name}`
  substitution, the deny / escalate / allow evaluator with risk tiers, taint rules and
  permission boundaries, and the explainer that must agree with it.
- **Shared state** (`kv/`) and the **one-time codes** on top of it (`otp/`): the bounded TTL
  cache, the token bucket, the fixed-window limiter, and issue / verify as a protocol over four
  cache entries.
- **Shared Signals** (`signals/`): the transmitter's streams and queue, push retries
  (section 2 of RFC 8935), poll and acknowledge (section 2 of RFC 8936), and the receiver's
  replay memory.
- **Resource-server caches** (`mcpresource/`): the DPoP replay queue (section 4.3 of RFC 9449),
  the JWKS cache and the introspection cache.

`dafny verify dfyconfig.toml` checks everything. Code that updates state in place is a class
whose methods are proved equal to a function of the old state; the theorems are about those
functions and about runs made of them. Beside each such function stands a law that does not
mention it: when a call is admitted, what becomes of a SET, which requests are allowed, what a
reader sees. Map walks pick an arbitrary key, so every result holds
for every walk order.

## How the model reads the source

- A char of a Dafny string is one byte of a Go string. No theorem depends on the alphabet.
- Times and durations are integers in nanoseconds. Each clock reading of the source is a
  separate parameter wherever the source reads the clock separately.
- Counters are unbounded. The one place where 64-bit wrap-around changes the outcome, the
  retry backoff, models it explicitly.
- Amounts, bucket levels and near-miss scores are real numbers where the source has `float64`.
- SHA-256, HMAC, signatures, JSON, JWK, address and timestamp parsing are function parameters
  or inputs. Results that need "no collision" say so for the values at hand.
- Network answers, handler outcomes, entropy and random ids are inputs. Random ids are assumed
  new.
- Policies have passed validation, so effects and operators are closed sets. The request time is
  fixed for one evaluation; for a request without a time of its own, a boundary is evaluated and
  an explanation is given at a second clock reading.

## What the proofs say that the documentation does not

- Glob-escaped substitution is literal for every binding exactly when no unescaped backslash
  stands directly before a reference (`Glob.SubstitutionIsLiteralIff`). After such a backslash
  the first substituted byte is taken as escaped; `Glob.UnguardedWildcard` is a concrete case.
- The token bucket truncates `RetryAfter` to whole nanoseconds. In exact arithmetic, waiting
  exactly that long is enough after every run of calls if and only if the window is a multiple of
  the limit, in nanoseconds (`TokenBucket.RetryAfterIff`), and one nanosecond more always is.
  `TokenBucket.RetryAfterTooShort` is three calls per second. The rounding of `float64` levels,
  which can break the "if", is not modelled.
- The fixed window is documented to admit "up to twice the limit" across a boundary. The sharp
  bound for a half-open span of one window length is `2 * limit - 1`, or `limit` for a window of
  one nanosecond, and it is reached.
- A one-time code is compared with at most `MaxAttempts` guesses per started lockout period of
  its lifetime, so `MaxAttempts` under the default durations; with a lifetime longer than the
  lockout the larger bound is reached (`OtpSteps.GuessBoundReached`). On a bounded cache of any
  size, shared with anything else, the bound of `MaxAttempts` holds if and only if the lockout is
  longer than the lifetime, or the cache holds a single entry (`OtpBounded.BoundedGuessesIff`):
  otherwise a full cache can evict the attempt counter before the code, again and again.
- The retry backoff is `base * 2^(n-1)` capped, for every attempt, if and only if the base is
  below 2^62 ns and the cap does not exceed the last doubling of the base that fits in 63 bits.
- The DPoP replay memory keeps an identifier until `iat` plus the maximum age, while the age check
  lets a proof pass for the clock skew longer. While fewer than the capacity of others are
  accepted, an accepted proof whose identifier no other proof uses is accepted again in that tail,
  and only there (`DpopProofs.FreshAgainIff`). Under both hypotheses a proof is used at most once
  in every run if and only if the skew is negative (`DpopProofs.SingleUseIff`). A skew of zero or
  less is ignored and the default is 60 seconds, so single use holds in no configuration the
  library can be given (`DpopProofs.NeverSingleUse`). Without the first hypothesis it fails for
  any skew (`DpopProofs.CapacityForgets`).
- A DPoP identifier accepted again while an expired copy of it is still queued can be forgotten
  before its deadline, because dropping the old copy deletes the new deadline. Protection until
  the deadline holds exactly when no older copy is queued (`DpopReplay.RefusedIffNotQueued`).
- A delivery reads the clock before it takes the lock, so deliveries that overlap can mark in
  another order than their readings. When a reading is at most `lag` behind the latest one,
  completed deliveries of a token began at least `window - lag` apart in every run if and only if
  failing handlers are done failing before the window ends, or `lag` is no less than the window
  (`Receiver.OncePerWindowIff`): a later failure deletes the mark of a newer delivery. No larger
  distance is guaranteed, even without a failing handler (`Receiver.GapIff`). For calls of Handle
  one after the other a whole window lies between them, whatever the handlers do
  (`ReceiverCalls.ProcessedOncePerWindow`).
- The NUL-joined replay key is injective exactly when no trusted issuer continues another one
  with a NUL.
- Statement ids need not be unique, and the reasoning of an explanation may use a later clock
  reading than the decision. It reports the statement that decided if and only if that statement
  still matches at that reading and no earlier statement that matches then carries the same policy
  id and statement id (`PolicyDecider.ExplainsDecider`). `PolicyDecider.SharedIdMisleads` is a
  policy where it reports another one, `PolicyDecider.WindowEnds` one where it reports none.
- The overlap in a near miss is that of the best resource pattern unless a pattern expands to the
  empty text (`PolicyTexts.OverlapIsBest`, `PolicyTexts.EmptyForgets`).
- After an invalidation a cached introspection answer was asked for since then if and only if no
  lookup of the token that was in flight across the invalidation took effect
  (`Introspect.AskedSinceIff`).

## Model

| member | source | states |
|---|---|---|
| `Glob.TokenAtIsFirst` | policy/glob.go:5-14 | Reading one token at a position agrees with the token list of the rest of the pattern: star, escaped byte, plain byte, lone trailing backslash |
| `Glob.NewStarSubsumes` | policy/glob.go:22-42 | Forgetting an earlier star loses no match: whatever an earlier star could still match, the later star matches from where it was met |
| `Glob.RestObeys` | policy/glob.go:5-14 | The recursive meaning of a pattern follows its tokens position by position |
| `Glob.OnlyStars` | policy/glob.go:43-50 | With the string used up, the rest matches exactly when only stars remain |
| `Glob.Backtrack` | policy/glob.go:19-51 | The loops with one saved star decide any relation that follows the pattern's tokens, within the work measure (len(s) - starI, len(pattern) - p) |
| `Glob.Match` | policy/glob.go:16-51 | For every pattern and string the iterative matcher answers what the recursive meaning says, in at most len(s)*(len(pattern)+1)+len(pattern) iterations |
| `Glob.Escape` | policy/glob.go:53-66 | Computes the escaped text, including the shortcut for text without special bytes |
| `Glob.TokensOfEscaped` | policy/glob.go:53-66 | Escaped text contributes exactly its own bytes as literals, whatever follows it |
| `Glob.EscapeIsLiteral` | policy/glob.go:53-66 | An escaped value matches itself and nothing else |
| `Glob.Expand` | policy/glob.go:72-105 | One left-to-right pass computes the expansion in both modes and never rescans a value; ok exactly when every referenced name is bound |
| `Glob.GuardedExpansion` | policy/glob.go:72-105 | In a guarded template the expansion reads back as the template's tokens with each reference replaced by the literal bytes of its value |
| `Glob.SubstitutionIsLiteralIff` | policy/glob.go:72-105 | Every string is matched as the template means, for every binding, if and only if no unescaped backslash stands directly before a reference |
| `Glob.UnguardedWildcard` | policy/glob.go:72-105 | A concrete unguarded template whose substituted star acts as a wildcard |
| `Templates.KeepsText` | policy/glob.go:72-105 | Text before the first brace stays as it is, in both modes |
| `Templates.ReplacesReference` | policy/glob.go:72-105 | A brace, a non-empty name over A-Z, a-z, 0-9, underscore, dot and hyphen, and a closing brace become the value of the name, escaped or as it is |
| `Templates.KeepsBrace` | policy/glob.go:72-105 | A brace that begins no such reference stays as it is |
| `Templates.ModesAgree` | policy/glob.go:53-105 | Read as a pattern, the escaped expansion of a template without wildcards matches the unescaped expansion and nothing else |
| `PolicyModel.CheckCidr` | policy/eval.go:257-269 | The address parses and some prefix that parses contains it |
| `PolicyModel.CheckCondition` | policy/eval.go:222-255 | A condition is decided as its operator means, for present, missing and unexpandable values |
| `PolicyModel.ConditionsComplement` | policy/eval.go:240-305 | Of an operator and its negation exactly one holds, also for missing attributes; two daily windows with swapped ends split the day |
| `PolicyModel.CheckResource` | policy/eval.go:206-220 | A resource pattern list covers a request when some pattern does; an unresolved variable covers nothing, or everything for a deny |
| `PolicyModel.CheckTarget` | policy/eval.go:196-204 | Action and resource are covered, where an unresolved resource counts for a deny only |
| `PolicyModel.CheckStatement` | policy/eval.go:184-194 | A statement matches exactly when its target is covered and all its conditions hold |
| `PolicyModel.StatementId` | policy/eval.go:150-155 | Every statement, named or not, is reported under a non-empty id |
| `PolicyTexts.DecimalReads` | policy/eval.go:150-155 | The number of an unnamed statement reads back as its position, so no two positions share one |
| `PolicyConditions.InIff` | policy/eval.go:222-248 | A membership condition holds exactly when the attribute is there and equals some value whose references can all be resolved |
| `PolicyConditions.InPlain` | policy/eval.go:222-248 | With plain values it is membership in the list as written |
| `PolicyConditions.EqualsPlain` | policy/eval.go:222-243 | A comparison with a plain value holds exactly when the attribute is there and equals it |
| `PolicyConditions.EqualsReference` | policy/eval.go:222-243 | A comparison with a reference holds exactly when both attributes are there and are equal |
| `PolicyConditions.AddressRead` | policy/eval.go:229-269 | The key "ip" reads the client address, never an attribute of that name, and an empty address is absent |
| `PolicyConditions.DailyIff` | policy/eval.go:290-305 | A daily window holds exactly when less time has passed since its start, around the clock, than lies between its start and end |
| `PolicyConditions.WindowSplits` | policy/eval.go:271-288 | A time window is split at any point in it into two halves of which exactly one holds; its start belongs to it, its end does not |
| `PolicyOutcome.MatchesIff` | policy/eval.go:184-220 | A statement applies exactly when an action pattern matches, all conditions hold, and a resolved resource pattern matches, or for a deny some resource cannot be resolved |
| `PolicyOutcome.PlainResource` | policy/eval.go:206-220 | A resource without wildcards covers exactly the resource that its text spells once the values are put in |
| `PolicyEval.Classify` | policy/risk.go:72-89 | Finds the first of the strongest matching tiers; some tier is found exactly when one demands something |
| `PolicyEval.RiskMeaning` | policy/risk.go:72-103 | Whether risk tightens an allow does not depend on the order of the tiers |
| `PolicyConditions.TierIff` | policy/risk.go:37-58 | A tier matches exactly when every field that it sets agrees with the request |
| `PolicyCodes.StrongestSpeaks` | policy/risk.go:72-89 | Of the matching tiers the strongest speaks: a step-up if any asks for one, else an approval |
| `PolicyEval.DefaultDenyCode` | policy/eval.go:121-148 | The code is the class of the first failed address or time condition, in policy order, among allow statements that cover the request |
| `PolicyEval.ScanPolicy` | policy/eval.go:73-110 | One policy yields its first matching deny, or else keeps the first escalate and the first allow seen so far |
| `PolicyEval.EvaluateStatements` | policy/eval.go:67-119 | First deny, else first escalate, else first allow after risk, else default deny, over all policies with nil ones skipped |
| `PolicyEval.Evaluate` | policy/eval.go:61-65 | Statements, then risk, then taint |
| `PolicyEval.EvaluateWithBoundary` | policy/eval.go:157-182 | The boundary is consulted only after an allow, with its own clock reading for a request without a time, and its refusal is the decision |
| `PolicyEval.EvaluateMeaning` | policy/eval.go:61-119 | Effect and Allowed are what the sets of statements, tiers and rules say: any deny, then any escalate, then any allow unless risk or taint tightens it |
| `PolicyEval.OrderIrrelevant` | policy/eval.go:61-119 | Effect and Allowed do not change under any reordering, regrouping or repetition of statements, tiers and rules |
| `PolicyEval.AddingNeverLoosens` | policy/eval.go:61-119 | Adding deny or escalate statements, risk tiers or taint rules never turns a refusal into an allow |
| `PolicyEval.BoundaryMeaning` | policy/eval.go:157-171 | Allowed exactly when the identity policies allow and there is no boundary or the boundary allows |
| `PolicyOutcome.DenyFailsClosed` | policy/eval.go:67-119 | A triggered deny whose resource names a missing attribute decides, whatever else the policies say |
| `PolicyOutcome.UnresolvedGrantsNothing` | policy/eval.go:196-220 | An allow or escalate whose resources all name a missing attribute never applies |
| `PolicyOutcome.AllowedIff` | policy/eval.go:61-119 | Allowed exactly when an allow written in some policy applies, no deny and no escalate does, no matching tier demands anything, and no taint rule is violated |
| `PolicyOutcome.DeniedIff` | policy/eval.go:61-119 | Denied exactly when a deny applies, or a grant does and a denying taint rule is violated; without effect exactly when nothing applies |
| `PolicyConditions.AmountThreshold` | policy/risk.go:37-103 | With one tier from an amount on, a request that only allows cover is allowed below the amount and escalated from it on |
| `PolicyConditions.AmountNeverLoosens` | policy/risk.go:37-103 | A larger amount never turns a refusal into an allow |
| `PolicyCodes.CodeMeaning` | policy/eval.go:61-119 | The code names the reason of every decision that has an effect, and an escalation comes with exactly the decisions that escalate |
| `PolicyCodes.DefaultCodeMeaning` | policy/eval.go:121-148 | A default deny is about the address or the time exactly when an allow covers the request and fails on such a condition, and only about a matter that failed |
| `PolicyCodes.RiskEscalates` | policy/risk.go:91-103 | An allow that risk escalates demands a step-up if any matching tier does, else an approval |
| `PolicyCodes.StatementEscalates` | policy/eval.go:67-119 | An escalate statement that decides names the tier and demands an approval unless it says otherwise |
| `PolicyCodes.BoundaryNamed` | policy/eval.go:157-171 | A decision names the boundary exactly when the identity policies allow and the boundary does not, and carries the reasons of the side that decided |
| `Taint.NormalizeProvenance` | policy/taint.go:96-117 | In any walk order the result lists, sorted and once each, exactly the non-blank labels of every argument that has any |
| `Taint.NormalizeIdempotent` | policy/taint.go:96-117 | Normalizing keeps the label sets and normalizing again changes nothing |
| `Taint.CheckLabels` | policy/taint.go:133-160 | One check reports the forbidden labels present, then the required patterns without a label, where an unlabeled argument counts only under a strict rule |
| `Taint.EvaluateTaint` | policy/taint.go:162-224 | The whole verdict, with its matches in order, is a function of the label set of each argument |
| `Taint.VerdictDependsOnLabelSets` | policy/taint.go:162-224 | Requests that differ only in order, repeats or blanks of labels get the same verdict and the same matches |
| `Taint.AllViolationsMeaning` | policy/taint.go:133-206 | Some match is reported exactly when some applicable rule is violated, and a denying one exactly when a violated rule denies |
| `Taint.TaintMeaning` | policy/taint.go:207-224 | The verdict is the strongest effect among violated rules, in terms of the set of rules; none is returned exactly for an unlabeled clean call |
| `Taint.MoreRulesNeverMilder` | policy/taint.go:162-224 | Adding rules never makes the verdict milder |
| `TaintRules.ViolatedIff` | policy/taint.go:133-206 | In terms of the labels as supplied: a rule is violated exactly when it is about the call and a forbidden label is present or a required one missing, for the whole call or for an argument it names |
| `TaintRules.TaintTierMeaning` | policy/taint.go:226-239 | The tier of a taint escalation is named by the first rule that carries the id of the first escalating match and names one, else it is "taint" |
| `PolicyTexts.LabelIff` | policy/taint.go:86-94 | A label pattern matches its own text, or with a trailing star every label that begins with it, as the same text does as a resource pattern |
| `PolicyExplain.FindDecided` | policy/explain.go:126-140 | Finds the first matching statement that carries the decision's ids |
| `PolicyExplain.Explain` | policy/explain.go:79-113 | The explanation carries the evaluator's own decision with its conditions, or on a default deny the failed ones and the near misses; the reasoning has its own clock reading |
| `PolicyExplain.ExplainsMatch` | policy/explain.go:81-95 | Whenever a statement decided, also after risk or taint, every reported condition passed; a statement is found exactly when one with the decision's ids matches at the second clock reading, so always with one reading |
| `PolicyDecider.DeciderExists` | policy/eval.go:67-119 | A statement decides exactly when the decision has an effect: the first matching deny, else the first escalate, else the first allow |
| `PolicyDecider.ExplainsDecider` | policy/explain.go:81-140 | The explanation finds the statement that decided and reports its conditions if and only if that statement still matches at the second clock reading and no earlier statement that matches then carries the same policy id and statement id |
| `PolicyDecider.DistinctIdsExplain` | policy/explain.go:81-140 | With distinct ids it reports the statement that decided exactly when that still matches at the second clock reading, so always with one reading or without time conditions |
| `PolicyDecider.SharedIdMisleads` | policy/explain.go:126-140 | A policy whose unnamed deny decides while the explanation finds an allow named like it |
| `PolicyDecider.MatchesAnytime` | policy/eval.go:184-255 | A statement without time conditions matches at every clock reading or at none |
| `PolicyDecider.WindowEnds` | policy/explain.go:81-95 | A time window that ends between the two clock readings: a statement decided, and no condition is reported |
| `PolicyExplain.ExplainsDefaultDeny` | policy/explain.go:96-113 | On a default deny every reported condition failed, and the first address or time entry of that list has the class that a decision at the second clock reading would have, which with one reading is the code |
| `PolicyExplain.CheckOverlap` | policy/explain.go:226-238 | The score is 1 for a full match, else the share of leading segments the pattern covers |
| `PolicyExplain.NearMisses` | policy/explain.go:173-224 | Reports the best candidates of all policies |
| `PolicyExplain.BestIsTop` | policy/explain.go:219-223 | Three near misses, or all when there are fewer, best first, and no omitted candidate scores higher than a reported one |
| `PolicyExplain.NearMissIsMiss` | policy/explain.go:176-182 | Every near miss is an allow or escalate statement that does not match |
| `PolicyTexts.CandidateIff` | policy/explain.go:173-201 | A near miss is a granting statement that does not match, whose action matches or whose resource covers at least the first segment |
| `PolicyTexts.ReportMeaning` | policy/explain.go:202-211 | The report names the resource exactly when none matched, the action exactly when none matched, and a condition exactly when both did |
| `PolicyTexts.ScoreMeaning` | policy/explain.go:212-222 | The score is 0.6 times the overlap plus 0.4 for the action, to two places and within 0 and 1; 0.9 when only a condition failed |
| `PolicyTexts.OverlapIsBest` | policy/explain.go:186-192 | The overlap of a statement is the largest of its resource patterns |
| `PolicyTexts.EmptyForgets` | policy/explain.go:186-192 | A pattern that expands to nothing loses its overlap to the next pattern, even a smaller one |
| `PolicyTexts.SharedMeaning` | policy/explain.go:226-238 | The shared segments are the leading ones that match one by one, up to the first that does not |
| `PolicyTexts.SplitJoins` | policy/explain.go:232-232 | Splitting into segments loses nothing and leaves no slash in a segment |
| `TtlMap.ViewLater` | kv/kv.go:24-50 | What can be observed later depends only on what can be observed now |
| `TtlMap.PutFrames` | kv/memory.go:94-129 | A put stores its entry and changes no other key except at most one victim with the earliest expiry, and only in a full cache |
| `TtlMap.EffectFrames` | kv/memory.go:94-189 | The same for every cache operation |
| `TtlMap.RoomIsPlain` | kv/memory.go:94-189 | While there is room, what can be observed of the bounded cache after an operation is what can be observed of an unbounded store, and at most one entry is added |
| `CacheLaws.ReadsLastWrite` | kv/memory.go:138-168 | Over any run, while others leave the key alone and there is room, a reader sees what was written last, until its lifetime is over |
| `CacheLaws.ReadsNothing` | kv/memory.go:138-176 | A deleted key, and one that was never written, is absent |
| `CacheLaws.CountsUp` | kv/memory.go:178-189 | An increment adds one to what a reader sees and keeps its lifetime, and starts at one where nothing is seen |
| `CacheLaws.EvictsEarliest` | kv/memory.go:112-129 | What a put pushes out expires no later than anything that stays, and what never expires goes last |
| `Memory.Memory.constructor` | kv/memory.go:25-75 | An empty store with a positive bound, 100000 by default |
| `Memory.Memory.LiveEntry` | kv/memory.go:82-92 | Returns the observable entry and changes nothing observable |
| `Memory.Memory.SweepEntries` | kv/memory.go:104-110 | Leaves exactly the observable entries |
| `Memory.Memory.EvictSoonest` | kv/memory.go:112-129 | In any walk order removes exactly one entry, with the earliest expiry |
| `Memory.Memory.Put` | kv/memory.go:94-102 | Acts as a map update, after evicting one entry of earliest expiry only when a new key meets a cache full of unexpired entries; the bound is kept |
| `Memory.Memory.Get` | kv/memory.go:138-147 | Reads the TTL map |
| `Memory.Memory.Set` | kv/memory.go:149-156 | Stores in the bounded TTL map, replacing value and counter |
| `Memory.Memory.SetNX` | kv/memory.go:158-168 | Stores exactly when the key is absent or expired |
| `Memory.Memory.Delete` | kv/memory.go:170-176 | Removes the key and nothing else |
| `Memory.Memory.Incr` | kv/memory.go:178-189 | Counts from one with the given lifetime, or adds one and keeps the original expiry |
| `Memory.Memory.Seen` | kv/memory.go:191-195 | Reports whether the identifier was recorded and still live, and records it otherwise |
| `Memory.Memory.SweepBuckets` | kv/memory.go:239-247 | Removes exactly the buckets idle for their window |
| `Memory.Memory.Allow` | kv/memory.go:197-237 | One token-bucket call on the shared map and a step of its runs: the decision for the key, idle buckets swept and at most one active bucket dropped only when the map is full; the bound is kept |
| `Memory.KeyRunsAlone` | kv/memory.go:197-247 | Whatever other keys do and whenever idle buckets are swept, the decisions for a key are those of a bucket of its own, as long as it is not dropped |
| `Memory.SharedAdmissionBound` | kv/memory.go:197-247 | Between any two points of any run of the shared limiter, a key is admitted at most limit plus what its bucket earns meanwhile |
| `TokenBucket.IdleIsFresh` | kv/memory.go:239-247 | A bucket idle for a whole window gives the same decision as a fresh one at every later time, so sweeping it changes nothing |
| `TokenBucket.AdmittedAfter` | kv/memory.go:222-237 | A refused caller that waits is admitted exactly when the wait covers the exact deficit |
| `TokenBucket.RetryAfterCut` | kv/memory.go:231-236 | In exact arithmetic RetryAfter is the exact wait cut to whole nanoseconds, and one nanosecond more always suffices |
| `TokenBucket.RetryAfterIff` | kv/memory.go:197-237 | In exact arithmetic, after every run of calls on a fresh bucket a refused caller that waits RetryAfter is admitted, if and only if the window is a multiple of the limit |
| `TokenBucket.RetryAfterTooShort` | kv/memory.go:231-236 | At three calls per second, after three calls at once, waiting RetryAfter is not enough |
| `TokenBucket.SpendsWhatItEarns` | kv/memory.go:197-237 | Over any run tokens stay in [0, limit] and admissions plus tokens left never exceed what was there plus what was earned |
| `TokenBucket.AdmissionBound` | kv/memory.go:197-237 | Any stretch of calls from s to t admits at most limit + limit*(t-s)/window |
| `AdmissionLaw.AdmittedIff` | kv/memory.go:197-237 | Over any run on a bucket that began full, a call is admitted if and only if every stretch of calls that ends with it admits no more than the capacity and what is earned over the stretch |
| `AdmissionLaw.SharedAdmittedIff` | kv/memory.go:197-247 | The same exact law for the calls on each key of the shared limiter |
| `AdmissionLaw.RemainingIff` | kv/memory.go:226-229 | Remaining is the number of further calls that would be admitted at the same instant |
| `WindowLimiter.WindowLimiter.Allow` | kv/kv.go:102-121 | Counts the call on the cache, refuses it once the count exceeds the limit with the window as RetryAfter, clamps the remaining budget to 32 bits, and is an own step of a run on the shared cache |
| `FixedWindows.CounterMeaning` | kv/memory.go:178-189 | The counter is the position of the last call in its window and expires when the window does |
| `FixedWindows.OpenersApart` | kv/kv.go:93-121 | Windows do not overlap |
| `FixedWindows.SpanBound` | kv/kv.go:93-121 | Every half-open span of one window length admits at most 2*limit - 1 calls, and at most `limit` for a window of one nanosecond |
| `FixedWindows.SpanBoundReached` | kv/kv.go:93-96 | That bound is reached for every window and limit |
| `FixedWindows.WindowAdmitsFirst` | kv/kv.go:107-113 | A window admits exactly its first `limit` calls |
| `WindowLimiter.AdmitsFirstOfWindow` | kv/kv.go:93-121 | On a shared cache, whatever happens to other keys, a call is admitted exactly when it is among the first `limit` of its window, as long as the key is not evicted |
| `WindowLimiter.LimiterSpanBound` | kv/kv.go:93-121 | In any such run any half-open span of one window length admits at most 2*limit - 1 calls on the key |
| `WindowLimiter.ForeignCacheStep` | kv/memory.go:94-189 | A cache operation on another key that does not evict the limiter's key is a foreign step of such a run |
| `WindowLimiter.WatchedIsRun` | kv/memory.go:94-189 | Any run of cache operations in which the limiter alone uses its key and nothing evicts it, seen from that key, is such a run |
| `WindowLimiter.SharedCacheSpanBound` | kv/kv.go:93-121 | So in any run of operations on the bounded cache the span bound holds for a key that is not evicted |
| `OtpSteps.New` | otp/otp.go:95-130 | Accepts exactly a cache and a sender, a secret of at least 32 bytes and the lengths 0 and 4 to 10, and yields positive lifetimes and attempts |
| `OtpSteps.Defaults` | otp/otp.go:95-130 | What is left open gets the documented default, and what is set is kept |
| `OtpProgram.KeysApart` | otp/otp.go:145-195 | The four cache keys of a destination differ from each other and from those of any other destination |
| `Otp.Service.Locked` | otp/otp.go:210-213 | One step of the protocol on the bounded cache; with room, whether the destination's lock entry is live |
| `Otp.Service.Issue` | otp/otp.go:131-170 | On the bounded cache a path of the protocol from idle to idle; with room for two entries it takes the issue step on the destination, for every outcome of lock, cooldown, entropy and send, and nothing else observable changes |
| `Otp.Service.Verify` | otp/otp.go:172-208 | On the bounded cache a path of the protocol from idle to idle; with room for two entries it takes the verify step: lock, count, lock out and discard, or compare and consume; nothing else observable changes |
| `Otp.DestinationsIndependent` | otp/otp.go:131-208 | Calls for one destination do not disturb another |
| `Otp.LiveOutcome` | otp/otp.go:131-208 | What a call does and answers depends on the live entries only |
| `Otp.IssuedCodeVerifies` | otp/otp.go:131-208 | Round trip: after a successful issue the next verify succeeds exactly for the code that was sent, and before it expires |
| `OtpSteps.GuessBound` | otp/otp.go:131-208 | Over any sequential run every issued code is compared with at most MaxAttempts*ceil(TTL/LockoutDuration) guesses and accepted at most once, despite re-issues, failed sends and lockouts |
| `OtpSteps.DefaultGuessBound` | otp/otp.go:112-123 | With default durations a code is compared at most MaxAttempts times |
| `OtpSteps.GuessBoundReached` | otp/otp.go:172-208 | Some run reaches the bound, for every configuration |
| `Otp.EveryDestinationBounded` | otp/otp.go:131-208 | Over any run of calls on any destinations that find room, the live entries of a destination are those its own calls leave, and each of its codes keeps the guess bound and is accepted at most once |
| `OtpBounded.StepKeeps` | otp/otp.go:131-208 | With LockoutDuration > TTL, on the bounded cache every operation, also of other users of the cache, keeps a guessed code's attempt counter beside it, counting every guess and expiring after the code |
| `OtpBounded.AnyNumberOfGuesses` | kv/memory.go:112-129 | With a lockout no longer than the lifetime, a cache of any size from two entries on can lose the counter first, and a code can be compared any number of times |
| `OtpBounded.BoundedGuessesIff` | otp/otp.go:131-208 | For every cache size, whatever else is stored in the cache, every code is compared with at most MaxAttempts guesses in every run, if and only if LockoutDuration > TTL or the cache holds one entry |
| `OtpSteps.SendsSpaced` | otp/otp.go:146-170 | Over any run, codes go out at least Cooldown apart, whatever fails in between |
| `OtpSteps.CooldownIff` | otp/otp.go:140-170 | Over any run, an issue that finds no lock is told to wait exactly when a code went out less than Cooldown before; a failed send or failed entropy blocks no retry |
| `OtpSteps.LockedIff` | otp/otp.go:172-213 | Over any run, a call is refused by the lock, and changes nothing, exactly when it begins less than LockoutDuration after a guess that exceeded MaxAttempts |
| `Otp.Generate` | otp/otp.go:236-252 | The code is the digits of the first Length accepted random bytes, and fails exactly when the input runs out first |
| `Otp.DigitsUniform` | otp/otp.go:236-252 | Exactly 25 of the accepted byte values give each digit |
| `SignalsStore.MemoryStore.Retag` | signals/memory.go:66-72 | In any walk order every queued SET of the stream gets the push flag, and no other SET changes |
| `SignalsStore.MemoryStore.UpdateStream` | signals/memory.go:59-74 | Replaces a known stream and re-tags its queue, or changes nothing |
| `SignalsStore.MemoryStore.DeleteStream` | signals/memory.go:76-87 | Removes the stream, its subjects and exactly its queued SETs |
| `SignalsStore.MemoryStore.SetSubject` | signals/memory.go:89-104 | Registers or removes one subject of one stream |
| `SignalsStore.MemoryStore.Sorted` | signals/memory.go:126-143 | In any walk order the oldest wanted SETs by creation time and id, at most the limit when that is positive |
| `SignalsStore.MemoryStore.DuePush` | signals/memory.go:145-149 | The oldest due push SETs |
| `SignalsStore.MemoryStore.PendingOf` | signals/memory.go:151-155 | The oldest SETs of a stream |
| `SignalsStore.MemoryStore.MarkAttempt` | signals/memory.go:163-171 | Records attempts and next time of one queued SET, if it is still there |
| `SignalsStore.MemoryStore.Ack` | signals/memory.go:173-188 | Removes exactly the stream's SETs with the given token ids and counts them |
| `SignalsStore.MemoryStore.Drop` | signals/memory.go:190-195 | Removes one SET |
| `Backoff.Delay` | signals/delivery.go:19-33 | The doubling loop with 64-bit wrap-around |
| `Backoff.DelayDocumentedIff` | signals/delivery.go:19-33 | The delay is min(base*2^(n-1), cap) for every attempt if and only if base < 2^62 and the cap does not exceed the last doubling of the base that fits |
| `Backoff.OrdinaryCaps` | signals/delivery.go:19-33 | With a cap of at most 2^62 ns and a smaller base no delay overflows |
| `SignalsTransmitter.Transmitter.CreateStream` | signals/transmitter.go:357-388 | Creation is a run step for an accepted delivery and changes nothing otherwise |
| `SignalsTransmitter.Transmitter.UpdateStream` | signals/transmitter.go:389-422 | PATCH and PUT are a run step exactly for the owner and an acceptable delivery |
| `SignalsTransmitter.Transmitter.DeleteStream` | signals/transmitter.go:423-433 | Deletion is a run step, for the owner only |
| `SignalsTransmitter.Transmitter.SetStatus` | signals/transmitter.go:450-476 | A status change is a run step, for the owner only |
| `SignalsTransmitter.Transmitter.SetSubject` | signals/transmitter.go:483-515 | A subject change is a run step, for the owner and a valid subject only |
| `SignalsTransmitter.Transmitter.VerifyStream` | signals/transmitter.go:543-587 | Queues one SET for an existing stream unless one was asked for within the minimum interval or signing fails; the SET is fit for a run |
| `SignalsTransmitter.Transmitter.Emit` | signals/transmitter.go:567-647 | Queues exactly one SET for every stream and event that go together, stream by stream in id order, apart from those that could not be signed |
| `SignalsTransmitter.TargetsMeaning` | signals/transmitter.go:589-647 | A stream gets a SET exactly when it exists, is not disabled, delivers the event's type and registered its subject or none |
| `SignalsStreams.TargetsCount` | signals/transmitter.go:619-647 | Emitting queues for every stream exactly one SET for each event that it wants |
| `SignalsStreams.BatchMeaning` | signals/transmitter.go:567-587 | The queued SETs are those that could be signed, each with the ids, token and time made for it and the method of its stream |
| `SignalsStreams.QueueAdds` | signals/memory.go:119-124 | Queueing files each SET under its id and changes no other |
| `SignalsStreams.PassesIff` | signals/transmitter.go:543-560 | Over any run a request for a verification event passes if and only if none for that stream passed within the minimum interval before |
| `SignalsTransmitter.EmitPossible` | signals/transmitter.go:567-587 | Emitted SETs carry their stream's method, fresh ids and fresh token ids, so emitting is a step of a run |
| `SignalsTransmitter.Transmitter.DeliverDue` | signals/delivery.go:35-78 | A pass takes the delivery step over the 100 oldest due SETs and reports its counts |
| `SignalsTransmitter.Transmitter.Poll` | signals/transmitter.go:658-727 | A run step: acknowledges processed and refused SETs of the owner's poll stream, then returns the first page of an enabled stream |
| `SignalsRuns.RunKeeps` | signals/delivery.go:40-78 | In every world of every run of create, update, status, delete, subject, emit, verify, deliver and poll steps the invariant holds, and fates are final; token ids of queued SETs are distinct |
| `SignalsRuns.QueuedSets` | signals/memory.go:59-87 | In every reachable world each queued SET belongs to an existing stream, its push flag is that stream's current method, and Attempts < MaxAttempts |
| `SignalsRuns.Conservation` | signals/delivery.go:48-76 | Every SET ever queued is queued or has exactly one final fate, and none is ever dropped for want of its stream |
| `SignalsRuns.RetriesBounded` | signals/delivery.go:61-75 | Each SET is pushed at most MaxAttempts times, and each push comes no earlier than the backoff of the attempt before |
| `SignalsDelivery.PausedKept` | signals/delivery.go:58-60 | A pass leaves the SETs of paused, disabled and poll streams exactly as they were |
| `SignalsDelivery.InPassIff` | signals/memory.go:126-149 | A pass takes a queued SET exactly when it is due for a push and fewer than 100 due SETs are older, by id among equals |
| `SignalsDelivery.PassOutcome` | signals/delivery.go:40-78 | In every pass of every run: a SET of an enabled push stream that the pass takes is pushed once and stays queued exactly after a transient failure that leaves an attempt, with the next attempt after the backoff; it is delivered exactly when acknowledged and dropped otherwise; every other SET is untouched |
| `SignalsDelivery.FateReason` | signals/delivery.go:48-78 | Over any run every SET that left did so for one reason: delivered when its last push was acknowledged; dropped when its last push was refused for good, or was number MaxAttempts and failed; acknowledged by the owner of its poll stream; or removed with its stream by the owner |
| `SignalsDelivery.TallyMeaning` | signals/delivery.go:35-78 | The counts of a pass are the numbers of SETs it delivered, put off and dropped |
| `SignalsStreams.OnlyOwners` | signals/transmitter.go:287-296 | A request about a stream by anyone but its owner changes nothing |
| `SignalsStreams.StreamCreated` | signals/transmitter.go:357-388 | A new stream is added as it is, and nothing else changes |
| `SignalsStreams.StreamUpdated` | signals/transmitter.go:389-422 | An update replaces the stream; its queued SETs take its delivery method and nothing else about any SET changes |
| `SignalsStreams.StatusSet` | signals/transmitter.go:440-476 | A status change sets the status, and nothing queued is lost or touched |
| `SignalsStreams.StreamDeleted` | signals/transmitter.go:423-433 | A deletion removes the stream, its subjects and exactly its queued SETs |
| `SignalsStreams.SubjectSet` | signals/transmitter.go:483-515 | A subject request registers or takes back that subject and no other |
| `SignalsStreams.DeliveryIff` | signals/transmitter.go:307-332 | A requested delivery is accepted exactly for a known method and, for push, an acceptable endpoint |
| `SignalsStreams.DeliveredIff` | signals/transmitter.go:273-285 | A stream gets exactly the supported event types, among those it asked for if it asked for any |
| `SignalsPoll.PageMeaning` | signals/transmitter.go:701-715 | A page is the front of the stream's queue, and moreAvailable says exactly that more than max were pending |
| `SignalsPoll.AckDropsPage` | signals/memory.go:173-188 | Acknowledging the first k SETs leaves the others of the stream in the same order |
| `SignalsPoll.DrainComplete` | signals/transmitter.go:684-726 | On a store with distinct token ids, acknowledging each page before the next poll shows every queued SET exactly once, in (CreatedAt, ID) order, in ceil(n/max) polls, with every page but the last full and moreAvailable set exactly on those |
| `SignalsDrain.DrainRun` | signals/transmitter.go:658-727 | From any reachable world, the owner of an enabled poll stream who acknowledges each reply with the next poll gets every queued SET exactly once, in order, in ceil(n/max) replies; then all of them have the fate of an acknowledged SET, and the SETs of other streams are as they were |
| `SignalsDrain.PausedGivesNothing` | signals/transmitter.go:699-726 | A poll of a paused or disabled stream returns nothing |
| `Receiver.Receiver.constructor` | signals/receiver.go:103-139 | An empty memory with a positive bound and window |
| `Receiver.Receiver.SweepSeen` | signals/receiver.go:198-203 | Leaves exactly the live marks |
| `Receiver.Receiver.MarkKey` | signals/receiver.go:191-210 | Refuses a live key as replay, sweeps only a full memory, and refuses a new key when nothing expired |
| `Receiver.Receiver.Handle` | signals/receiver.go:141-180 | A token is handled, replayed, refused or failed; the first failing handler forgets the mark and stops the rest |
| `Receiver.KeysInjectiveIff` | signals/receiver.go:164-164 | The replay key tells tokens apart exactly when no trusted issuer continues another one with a NUL |
| `Receiver.NoNulIsFree` | signals/receiver.go:164-164 | Issuers without NUL meet that condition |
| `Receiver.MarkKeepsLive` | signals/receiver.go:191-210 | Marking keeps every live mark with its deadline, stays within the bound, and refuses a new key exactly when the memory is full of live marks |
| `Receiver.FailedIsRetryable` | signals/receiver.go:172-216 | After a failed handler a delivery of the token that comes next is accepted, even by a memory that was full |
| `Receiver.OncePerWindowIff` | signals/receiver.go:141-216 | In every run, with deliveries that overlap and clock readings up to lag behind the latest, two completed deliveries of one key began at least window - lag apart, if and only if failing handlers fail within a time shorter than the window, or the lag is no shorter |
| `Receiver.GapReached` | signals/receiver.go:191-210 | With a bound above one and a lag shorter than the window, two deliveries of a key that began exactly window - lag apart can both complete without any failing handler, when another delivery with a later reading sweeps the mark in between |
| `Receiver.GapIff` | signals/receiver.go:141-216 | With a bound above one and handlers that fail within the window, a distance is guaranteed in every run, if and only if it is at most window - lag |
| `Receiver.LateFailure` | signals/receiver.go:172-216 | A delivery that fails when its mark has expired deletes the mark of a newer delivery, for every window and bound |
| `ReceiverCalls.ReplayedIff` | signals/receiver.go:141-216 | Over any run of Handle calls, a verified token is refused as a replay exactly when an earlier call processed that issuer and token id less than a replay window before |
| `ReceiverCalls.ProcessedOncePerWindow` | signals/receiver.go:141-216 | Over any run of Handle calls a token is processed at most once per replay window, whatever its handlers do |
| `DpopReplay.Verifier.constructor` | mcpresource/dpop.go:83-105 | Defaults of age and capacity; an empty memory |
| `DpopReplay.Verifier.RememberJti` | mcpresource/dpop.go:208-232 | The two loops over map and queue compute the replay step and keep the memory well formed |
| `DpopReplay.Verifier.CheckFresh` | mcpresource/dpop.go:169-189 | Expired exactly outside the age window, malformed exactly without jti, both leaving the memory alone; otherwise the replay step with deadline iat + maximum age |
| `DpopReplay.ExecWellFormed` | mcpresource/dpop.go:208-232 | In every reachable state each remembered jti is queued and the queue is within its capacity |
| `DpopReplay.SweepKeepsLive` | mcpresource/dpop.go:215-223 | The lazy sweep forgets no live jti and changes no deadline |
| `DpopReplay.ExecProtects` | mcpresource/dpop.go:208-232 | Over any run before its deadline a protected jti is refused at every presentation while fewer than the capacity are accepted |
| `DpopReplay.RefusedIffNotQueued` | mcpresource/dpop.go:208-232 | An accepted jti is refused at every time before its deadline, while fewer than the capacity of further ones are accepted, if and only if no older copy of it was still queued |
| `DpopReplay.OldCopyForgets` | mcpresource/dpop.go:208-232 | A concrete run in which an older queued copy makes a jti forgotten early |
| `DpopProofs.FreshAgainIff` | mcpresource/dpop.go:169-232 | After acceptance without an older copy, and while fewer than the capacity of others are accepted, a proof is fresh again exactly from iat + maximum age to iat + maximum age + skew |
| `DpopProofs.NewProofIff` | mcpresource/dpop.go:169-189 | A proof whose identifier is not remembered is accepted exactly when it has one and was issued within the maximum age and skew before or after now, and is then remembered until iat + maximum age |
| `DpopProofs.SingleUseIff` | mcpresource/dpop.go:169-232 | Over all runs every proof whose identifier no other proof uses is accepted at most once while fewer than the capacity of others are accepted, if and only if the skew is negative |
| `DpopProofs.NeverSingleUse` | mcpresource/validator.go:124-132 | No sequence of skew options, age and capacity that the library can be given has that property |
| `DpopProofs.CapacityForgets` | mcpresource/dpop.go:208-232 | With a capacity of one, whatever the skew, the acceptance of another proof makes the first one acceptable again |
| `DpopProofs.UsedTwice` | mcpresource/dpop.go:169-232 | With any other skew every proof accepted at iat is accepted again at iat + maximum age |
| `DpopProofs.DefaultSkewTail` | mcpresource/validator.go:158-161 | With the default age and skew of 60 seconds a proof is accepted again 90 seconds later |
| `Jwks.JwksCache.constructor` | mcpresource/jwks.go:46-57 | An empty cache, five seconds between refreshes and one hour of staleness by default |
| `Jwks.JwksCache.RefreshKeys` | mcpresource/jwks.go:142-222 | Throttled only with keys at hand; a failed fetch or an empty key set changes nothing |
| `Jwks.JwksCache.LookupKey` | mcpresource/jwks.go:98-126 | Serves a fresh key, else refreshes, and after a failed refresh serves a key only within the stale limit |
| `Jwks.JwksCache.KeyFor` | mcpresource/jwks.go:67-82 | A key whose document pins an algorithm serves that algorithm only |
| `Jwks.JwksCache.ForceRefresh` | mcpresource/jwks.go:224-230 | Makes the cache count as never fetched and keeps its keys |
| `Jwks.AnswersAreFresh` | mcpresource/jwks.go:98-222 | After any history a key is only returned from a fetched non-empty document that holds it, of age at most max(ttl, stale limit, minimum interval) when it was checked |
| `Jwks.AnsweredBy` | mcpresource/jwks.go:98-222 | The exact answer to every lookup of every run: a known key while the document is fresh, nothing new within the minimum interval, else what the fetched document says, and after a failed fetch the old key within the stale limit |
| `Jwks.ForcedFetches` | mcpresource/jwks.go:224-230 | After a forced refresh the next lookup fetches, and serves no key when that fails |
| `Jwks.FetchesThrottled` | mcpresource/jwks.go:142-150 | Over any run of lookups none goes to the network within the minimum interval of a successful fetch |
| `Introspect.IntrospectCache.constructor` | mcpresource/introspect.go:90-103 | An empty cache with its lifetime and hash |
| `Introspect.IntrospectCache.Lookup` | mcpresource/introspect.go:105-157 | Inactive when not configured; otherwise a live entry without asking, else the server's answer, and the call is a step of every run that leads to its cache |
| `Introspect.IntrospectCache.Insert` | mcpresource/introspect.go:139-157 | A live entry stored meanwhile by another lookup wins; otherwise the entry is stored and the bound kept |
| `Introspect.IntrospectCache.EvictLocked` | mcpresource/introspect.go:159-178 | Changes a full cache only: expired entries go, then one arbitrary entry if that is not enough |
| `Introspect.IntrospectCache.Invalidate` | mcpresource/introspect.go:180-195 | Removes exactly the entries under the token's hash, and is a step of a run |
| `Introspect.PrefixMeaning` | mcpresource/introspect.go:186-195 | The prefix test hits exactly the keys of tokens with the same hash |
| `Introspect.HitsAreCurrent` | mcpresource/introspect.go:105-195 | At any point of any run, with any overlap of lookups, a hit is a server answer for that token and audience, stored after the token's last invalidation, before the end of the lifetime that the server gave, or of the configured one when it gave none |
| `IntrospectCalls.AnsweredInTime` | mcpresource/introspect.go:105-195 | Over any run of calls, a lookup that does not ask the server gives an answer that the server gave to an earlier lookup of the token and audience and whose own lifetime is not over |
| `IntrospectCalls.KeptForItsLife` | mcpresource/introspect.go:136-157 | A stored answer stays for exactly that lifetime while there is room and nobody invalidates the token |
| `IntrospectCalls.AsksAgainIff` | mcpresource/introspect.go:105-157 | So a lookup asks the server again if and only if that lifetime is over |
| `Introspect.AskedSinceIff` | mcpresource/introspect.go:105-195 | From an invalidation on every hit was asked for after it, if and only if no lookup of the token in flight across it took effect |
| `Introspect.InvalidatedMisses` | mcpresource/introspect.go:180-195 | Right after an invalidation no audience has a live entry of the token, so the next lookup asks the server |
| `Introspect.OthersKept` | mcpresource/introspect.go:180-195 | Invalidation leaves the entries of other tokens alone |

## Left out

- Root-package forwarders, configuration, mounts, wiring, storage interfaces and their contract tests, `clientauth/`, approvals and agent policies: plumbing, or easy members next to the ones above.
- Signatures, hashing, JWK and JSON parsing, URL and endpoint validation, HTTP handlers and headers: library code or presentation; inputs or function parameters here.
- PolicyModel.CheckCidr: which texts parse as an address or a prefix, and which prefix contains which address, are parameters.
- PolicyModel.CheckCondition: parsing of addresses, prefixes, timestamps and clock times is a parameter, so which texts parse is not modelled.
- PolicyEval.Evaluate: reason texts are not modelled.
- PolicyTexts.OverlapIsBest: for patterns that do not expand to the empty text; such an expansion makes the code forget a better one.
- PolicyTexts.CandidateIff: as for OverlapIsBest.
- PolicyConditions.DailyIff: that clock times and minutes of the day lie within one day is assumed of the library.
- PolicyExplain.Explain: detail and hint texts are not modelled; scores are rounded on real numbers.
- Memory.Memory.Allow: bucket levels are real numbers, so floating-point rounding is not modelled.
- TokenBucket.RetryAfterIff: exact arithmetic; with `float64` levels the wait can be too short also when the window is a multiple of the limit.
- TokenBucket.RetryAfterCut: exact arithmetic, as above.
- Memory.Memory.Incr: the counter does not wrap at 64 bits.
- WindowLimiter.AdmitsFirstOfWindow: assumes the cache does not evict the key; after an eviction its window starts again.
- AdmissionLaw.AdmittedIff: exact arithmetic, as above.
- AdmissionLaw.SharedAdmittedIff: exact arithmetic, and as for KeyRunsAlone.
- CacheLaws.ReadsLastWrite: for a cache with room; what a full cache evicts is told by EvictsEarliest.
- Memory.KeyRunsAlone: assumes the key's bucket is not the one dropped from a full map; after that it starts full again.
- WindowLimiter.WatchedIsRun: for a key that only the limiter uses and that is not evicted.
- Otp.Service.Issue: errors of the cache itself are not modelled, clock readings of a call do not go back, and its own operations follow each other without others in between; the step on the destination's entries is for a cache with room, and eviction is covered by `OtpBounded`, of which every call is a path.
- Otp.Service.Verify: as for Issue.
- OtpSteps.GuessBound: for calls on a destination that follow one another; calls on one destination that interleave, where reading and deleting the code are separate cache operations, are not covered.
- SignalsTransmitter.Transmitter.Emit: errors of the store and the wake-up of the push loop are not modelled.
- SignalsTransmitter.Transmitter.SetSubject: which subjects are valid is an input.
- SignalsTransmitter.Transmitter.Poll: the wait of a long poll is not modelled; a poll reads the queue once.
- SignalsDrain.DrainRun: nothing happens between the polls of a drain.
- Receiver.OncePerWindowIff: how far a reading can lag is a parameter.
- Push liveness is not claimed: a pass takes the 100 oldest due SETs and skips those of paused streams in place.
- Injectivity of subject keys is not claimed: their separators are not escaped.
- Introspect.HitsAreCurrent: assumes no two tokens of the run share a hash.
- IntrospectCalls.AnsweredInTime: as for HitsAreCurrent; calls one after the other, while HitsAreCurrent allows any overlap.
- IntrospectCalls.AsksAgainIff: while the cache is not full; a full one may drop any entry.
- DpopProofs.FreshAgainIff: one clock for the request and the replay memory; the other steps of proof verification are not modelled.
- `CacheReplay.Seen` is the same SetNX call as the modelled `Memory.Memory.Seen`.
