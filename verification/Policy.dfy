/**
 The deterministic priority policy and the staleness test of app/communication/priority.py.

 Times and ages are microseconds, prices are cents and weights are hundredths.
 */
module Policy {
  import opened Options

  type Time = int
  type Id = nat

  datatype Reason = Atraso | Reclamacao | Troca | Devolucao | Suporte | Outros | Elogio

  datatype ItemStatus = Placed | Preparing | InTransit | Delivered | Cancelled

  datatype Priority = Low | Medium | High | Critical

  const HOUR: int := 3_600_000_000

  function ReasonWeight(reason: Reason): int {
    match reason
    case Atraso => 100
    case Reclamacao => 75
    case Troca => 50
    case Devolucao => 50
    case Suporte => 40
    case Outros => 25
    case Elogio => 0
  }

  function StatusWeight(status: ItemStatus): int {
    match status
    case InTransit => 100
    case Preparing => 75
    case Placed => 50
    case Delivered => 25
    case Cancelled => 0
  }

  const AGE_BUCKET_HOURS: seq<int> := [4, 12, 24, 48]

  const AGE_BUCKET_LABELS: seq<string> := ["<4h", "4-12h", "12-24h", "24-48h", ">48h"]

  /** Index of the first boundary the age lies under, scanning from `index`. */
  function RankFrom(age: int, index: nat): (r: nat)
    requires index <= |AGE_BUCKET_HOURS|
    decreases |AGE_BUCKET_HOURS| - index
  {
    if index == |AGE_BUCKET_HOURS| || age < AGE_BUCKET_HOURS[index] * HOUR then index
    else RankFrom(age, index + 1)
  }

  function AgeBucketRank(age: int): (r: nat)
    ensures r <= 4
    ensures r == 0 <==> age < 14_400_000_000
    ensures r <= 1 <==> age < 43_200_000_000
    ensures r <= 2 <==> age < 86_400_000_000
    ensures r <= 3 <==> age < 172_800_000_000
  {
    assert RankFrom(age, 4) == 4;
    assert RankFrom(age, 3) == if age < 48 * HOUR then 3 else 4;
    assert RankFrom(age, 2) == if age < 24 * HOUR then 2 else RankFrom(age, 3);
    assert RankFrom(age, 1) == if age < 12 * HOUR then 1 else RankFrom(age, 2);
    RankFrom(age, 0)
  }

  function AgeBucket(age: int): string {
    AGE_BUCKET_LABELS[AgeBucketRank(age)]
  }

  const AGE_BUCKET_WEIGHTS: seq<int> := [0, 25, 50, 75, 100]

  function AgeWeight(age: int): int {
    AGE_BUCKET_WEIGHTS[AgeBucketRank(age)]
  }

  function ValueWeight(price: int): (w: int)
    ensures 0 <= w <= 100 && w % 25 == 0
    ensures w == 0 <==> price < 10_000
    ensures w <= 25 <==> price < 50_000
    ensures w <= 50 <==> price < 100_000
    ensures w <= 75 <==> price < 500_000
  {
    if price < 10_000 then 0
    else if price < 50_000 then 25
    else if price < 100_000 then 50
    else if price < 500_000 then 75
    else 100
  }

  function Classify(score: int): (p: Priority)
    ensures p != Critical
    ensures p == Low <==> score <= 100
    ensures p == High <==> score > 225
  {
    if score <= 100 then Low else if score <= 225 then Medium else High
  }

  function Score(reason: Reason, status: ItemStatus, createdAt: Time, price: int, now: Time): int {
    ReasonWeight(reason) + StatusWeight(status) + AgeWeight(now - createdAt) + ValueWeight(price)
  }

  function CalculatePriority(reason: Reason, status: ItemStatus, createdAt: Time, price: int, now: Time): (p: Priority)
    ensures p != Critical
  {
    Classify(Score(reason, status, createdAt, price, now))
  }

  function EffectivePriority(calculated: Priority, override: Option<Priority>): Priority {
    match override
    case Some(p) => p
    case None => calculated
  }

  predicate IsStale(now: Time, createdAt: Time, lastInteractionAt: Time,
                    statusUpdatedAt: Option<Time>, calculatedAt: Option<Time>)
  {
    if calculatedAt.None? then true
    else if lastInteractionAt > calculatedAt.value then true
    else if statusUpdatedAt.Some? && statusUpdatedAt.value > calculatedAt.value then true
    else AgeBucket(now - createdAt) != AgeBucket(calculatedAt.value - createdAt)
  }

  /** Comparing labels is comparing ranks: no two buckets share a label. */
  lemma LabelsAreRanks(a: int, b: int)
    ensures AgeBucket(a) == AgeBucket(b) <==> AgeBucketRank(a) == AgeBucketRank(b)
  {
  }

  function Rank(p: Priority): nat {
    match p
    case Low => 0
    case Medium => 1
    case High => 2
    case Critical => 3
  }

  /** Age only ever raises the policy's verdict: with everything else fixed, priority never falls. */
  lemma PriorityRisesWithAge(reason: Reason, status: ItemStatus, createdAt: Time, price: int, t: Time, u: Time)
    requires t <= u
    ensures Rank(CalculatePriority(reason, status, createdAt, price, t))
         <= Rank(CalculatePriority(reason, status, createdAt, price, u))
  {
  }

  /** Everything else fixed, a dearer item is never less urgent. */
  lemma PriorityRisesWithPrice(reason: Reason, status: ItemStatus, createdAt: Time, price: int, dearer: int, now: Time)
    requires price <= dearer
    ensures Rank(CalculatePriority(reason, status, createdAt, price, now))
         <= Rank(CalculatePriority(reason, status, createdAt, dearer, now))
  {
  }

  // ------------------------------------------------------------------ the policy in steps

  /** How far an item is from cancelled, as the policy counts it. */
  function StatusSteps(status: ItemStatus): nat {
    match status
    case Cancelled => 0
    case Delivered => 1
    case Placed => 2
    case Preparing => 3
    case InTransit => 4
  }

  function Reached(bound: int, price: int): nat {
    if price >= bound then 1 else 0
  }

  /** How many of the four price boundaries the price has reached. */
  function PriceSteps(price: int): nat {
    Reached(10_000, price) + Reached(50_000, price) + Reached(100_000, price) + Reached(500_000, price)
  }

  /** The steps of status, age and price together that make a conversation medium, by its reason. */
  function MediumAt(reason: Reason): nat {
    match reason
    case Atraso => 1
    case Reclamacao => 2
    case Troca => 3
    case Devolucao => 3
    case Suporte => 3
    case Outros => 4
    case Elogio => 5
  }

  /**
   The whole policy without its weights: each step of status, age or price counts the same, a reason says
   how many make a conversation medium, and five more make it high.
   */
  lemma VerdictInSteps(reason: Reason, status: ItemStatus, createdAt: Time, price: int, now: Time)
    ensures var steps := StatusSteps(status) + AgeBucketRank(now - createdAt) + PriceSteps(price);
      var verdict := CalculatePriority(reason, status, createdAt, price, now);
      && (verdict == Low <==> steps < MediumAt(reason))
      && (verdict == High <==> steps >= MediumAt(reason) + 5)
  {
    assert ValueWeight(price) == 25 * PriceSteps(price);
    assert StatusWeight(status) == 25 * StatusSteps(status);
    assert AgeWeight(now - createdAt) == 25 * AgeBucketRank(now - createdAt);
  }

  function StatusAt(steps: nat): (status: ItemStatus)
    requires steps <= 4
    ensures StatusSteps(status) == steps
  {
    match steps
    case 0 => Cancelled
    case 1 => Delivered
    case 2 => Placed
    case 3 => Preparing
    case _ => InTransit
  }

  function ReasonAt(steps: nat): (reason: Reason)
    requires 1 <= steps <= 5
    ensures MediumAt(reason) == steps
  {
    match steps
    case 1 => Atraso
    case 2 => Reclamacao
    case 3 => Troca
    case 4 => Outros
    case _ => Elogio
  }

  lemma ReasonsInOrder(a: Reason, b: Reason, status: ItemStatus, createdAt: Time, price: int, now: Time)
    requires MediumAt(b) <= MediumAt(a)
    ensures Rank(CalculatePriority(a, status, createdAt, price, now)) <= Rank(CalculatePriority(b, status, createdAt, price, now))
  {
    VerdictInSteps(a, status, createdAt, price, now);
    VerdictInSteps(b, status, createdAt, price, now);
  }

  lemma StatusesInOrder(reason: Reason, a: ItemStatus, b: ItemStatus, createdAt: Time, price: int, now: Time)
    requires StatusSteps(a) <= StatusSteps(b)
    ensures Rank(CalculatePriority(reason, a, createdAt, price, now)) <= Rank(CalculatePriority(reason, b, createdAt, price, now))
  {
    VerdictInSteps(reason, a, createdAt, price, now);
    VerdictInSteps(reason, b, createdAt, price, now);
  }

  /** All that the verdict depends on besides reason and status. */
  datatype Circumstance = Circumstance(createdAt: Time, price: int, now: Time)

  function Verdict(reason: Reason, status: ItemStatus, c: Circumstance): nat {
    Rank(CalculatePriority(reason, status, c.createdAt, c.price, c.now))
  }

  /** Neither age nor price counts yet. */
  predicate Fresh(c: Circumstance) {
    AgeBucketRank(c.now - c.createdAt) == 0 && PriceSteps(c.price) == 0
  }

  lemma SomeFresh() returns (c: Circumstance)
    ensures Fresh(c)
  {
    c := Circumstance(0, 0, 0);
  }

  /** Then status alone tells two reasons apart, and reason two statuses. */
  lemma ReasonOutranks(a: Reason, b: Reason, status: ItemStatus, c: Circumstance)
    requires Fresh(c) && StatusSteps(status) == MediumAt(a) < MediumAt(b)
    ensures Verdict(a, status, c) > Verdict(b, status, c)
  {
    VerdictInSteps(a, status, c.createdAt, c.price, c.now);
    VerdictInSteps(b, status, c.createdAt, c.price, c.now);
  }

  lemma StatusOutranks(a: ItemStatus, b: ItemStatus, reason: Reason, c: Circumstance)
    requires Fresh(c) && MediumAt(reason) == StatusSteps(a) > StatusSteps(b)
    ensures Verdict(reason, a, c) > Verdict(reason, b, c)
  {
    VerdictInSteps(reason, a, c.createdAt, c.price, c.now);
    VerdictInSteps(reason, b, c.createdAt, c.price, c.now);
  }

  /** Whatever else holds of a conversation, the first reason never makes it more urgent than the second. */
  ghost predicate NeverOutranks(a: Reason, b: Reason) {
    forall status, c :: Verdict(a, status, c) <= Verdict(b, status, c)
  }

  /** Reasons order the verdict exactly as the steps they ask for; support, exchange and return weigh the same. */
  lemma ReasonsOrderExactly(a: Reason, b: Reason)
    ensures NeverOutranks(a, b) <==> MediumAt(b) <= MediumAt(a)
  {
    if MediumAt(b) <= MediumAt(a) {
      forall status, c: Circumstance ensures Verdict(a, status, c) <= Verdict(b, status, c) {
        ReasonsInOrder(a, b, status, c.createdAt, c.price, c.now);
      }
    } else {
      var c := SomeFresh();
      ReasonOutranks(a, b, StatusAt(MediumAt(a)), c);
    }
  }

  ghost predicate StatusNeverOutranks(a: ItemStatus, b: ItemStatus) {
    forall reason, c :: Verdict(reason, a, c) <= Verdict(reason, b, c)
  }

  /** Statuses order the verdict from cancelled, delivered, placed and preparing up to in transit, each step telling. */
  lemma StatusesOrderExactly(a: ItemStatus, b: ItemStatus)
    ensures StatusNeverOutranks(a, b) <==> StatusSteps(a) <= StatusSteps(b)
  {
    if StatusSteps(a) <= StatusSteps(b) {
      forall reason, c: Circumstance ensures Verdict(reason, a, c) <= Verdict(reason, b, c) {
        StatusesInOrder(reason, a, b, c.createdAt, c.price, c.now);
      }
    } else {
      var c := SomeFresh();
      StatusOutranks(a, b, ReasonAt(StatusSteps(a)), c);
    }
  }

  /** While an unstale cache entry stands, the policy asked now gives what it gave when it was stamped. */
  lemma UnstalePolicyAgrees(reason: Reason, status: ItemStatus, createdAt: Time, price: int, now: Time,
                            lastInteractionAt: Time, statusUpdatedAt: Option<Time>, calculatedAt: Option<Time>)
    requires !IsStale(now, createdAt, lastInteractionAt, statusUpdatedAt, calculatedAt)
    ensures calculatedAt.Some?
    ensures CalculatePriority(reason, status, createdAt, price, now)
         == CalculatePriority(reason, status, createdAt, price, calculatedAt.value)
  {
  }
}
