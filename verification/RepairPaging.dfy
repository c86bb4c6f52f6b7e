/** The repair queue's and the provider list's orderings, and the repair queue's cursor codec. */
module RepairPaging {
  import opened Prelude
  import opened KeysetPaging

  datatype Priority = Emergency | PermanentDeparture | PreWarning

  /** The enum's declaration order, which is its ORDER BY order. */
  function Rank(p: Priority): nat { match p case Emergency => 0 case PermanentDeparture => 1 case PreWarning => 2 }

  datatype Key = Key(priority: Priority, createdAt: int, jobId: int)

  /** Row comparison (priority, created_at, job_id) < (...). */
  predicate Before(a: Key, b: Key) {
    || Rank(a.priority) < Rank(b.priority)
    || (a.priority == b.priority && (a.createdAt < b.createdAt || (a.createdAt == b.createdAt && a.jobId < b.jobId)))
  }

  lemma BeforeIsOrder()
    ensures Order(Before)
  {
    assert forall a: Priority, b: Priority :: Rank(a) == Rank(b) ==> a == b;
  }

  /** The provider list is walked newest first: (created_at, provider_id) < cursor, both DESC. */
  predicate Newer(a: (int, int), b: (int, int)) { a.0 > b.0 || (a.0 == b.0 && a.1 > b.1) }

  lemma NewerIsOrder()
    ensures Order(Newer)
  {
    assert forall a: (int, int), b: (int, int) :: a.0 == b.0 && a.1 == b.1 ==> a == b;
  }

  /**
    Walking the repair queue while jobs are enqueued, dequeued, completed and promoted: a job whose
    priority and status stay fixed is listed exactly once, and cursors strictly increase.
   */
  lemma QueueWalk(tables: seq<set<Key>>, limit: nat, visits: seq<Visit<Key>>, k: Key, i: nat)
    requires Walk(Before, tables, limit, visits)
    ensures i + 1 < |visits| && visits[i + 1].page.next.Some? ==> Before(visits[i].page.next.value, visits[i + 1].page.next.value)
    ensures Completed(visits) && (forall j :: 0 <= j < |tables| ==> k in tables[j]) ==>
              Occurrences(Listed(visits, 0, |visits|), k) == 1
  {
    BeforeIsOrder();
    if i + 1 < |visits| && visits[i + 1].page.next.Some? {
      CursorsIncrease(Before, tables, limit, visits, i);
    }
    if Completed(visits) && forall j :: 0 <= j < |tables| ==> k in tables[j] {
      StableRowListedOnce(Before, tables, limit, visits, k);
    }
  }

  /**
    A job promoted from PRE_WARNING between requests m-1 and m of a completed walk is listed once,
    or not at all exactly when the cursor stood between its two positions.
   */
  lemma PromotedJobListing(tables: seq<set<Key>>, limit: nat, visits: seq<Visit<Key>>, k: Key, m: nat)
    requires Walk(Before, tables, limit, visits) && Completed(visits) && 0 < m < |visits| && k.priority == PreWarning
    requires forall i :: 0 <= i < m ==> k in tables[i] && Promoted(k) !in tables[i]
    requires forall i :: m <= i < |tables| ==> Promoted(k) in tables[i] && k !in tables[i]
    ensures visits[m].cursor.Some?
    ensures var c := visits[m].cursor.value;
      var all := Listed(visits, 0, |visits|);
      Occurrences(all, k) + Occurrences(all, Promoted(k)) == (if Before(c, k) && !Before(c, Promoted(k)) then 0 else 1)
  {
    BeforeIsOrder();
    MovedRowListing(Before, tables, limit, visits, m, k, Promoted(k));
  }

  /** The same walk over the provider list, whose keys never change. */
  lemma ProviderWalk(tables: seq<set<(int, int)>>, limit: nat, visits: seq<Visit<(int, int)>>, k: (int, int))
    requires Walk(Newer, tables, limit, visits) && Completed(visits)
    requires forall i :: 0 <= i < |tables| ==> k in tables[i]
    ensures Occurrences(Listed(visits, 0, |visits|), k) == 1
  {
    NewerIsOrder();
    StableRowListedOnce(Newer, tables, limit, visits, k);
  }

  function Promoted(k: Key): Key { k.(priority := PermanentDeparture) }

  /** A promotion moves a warning up past every other warning, and orders it by age among the departures. */
  lemma PromotionMovesUp(k: Key, other: Key)
    requires k.priority == PreWarning
    ensures other.priority == PreWarning ==> Before(Promoted(k), other)
    ensures other.priority == Emergency ==> Before(other, Promoted(k))
    ensures other.priority == PermanentDeparture && other.createdAt != k.createdAt ==>
      (Before(Promoted(k), other) <==> k.createdAt < other.createdAt)
    ensures Promoted(k).(priority := k.priority) == k
  {
  }

  // ---------------------------------------------------------------- the cursor codec

  const INT64_MIN := -0x8000_0000_0000_0000
  const INT64_MAX := 0x7fff_ffff_ffff_ffff

  function Digit(d: nat): char
    requires d < 10
  {
    '0' + d as char
  }

  function Digits(n: nat): (s: string)
    ensures s != [] && forall c :: c in s ==> '0' <= c <= '9'
  {
    if n < 10 then [Digit(n)] else Digits(n / 10) + [Digit(n % 10)]
  }

  /** fmt's %d of an int64. */
  function FormatInt(x: int): string { if x < 0 then ['-'] + Digits(-x) else Digits(x) }

  function ParseDigits(s: string): Option<nat> {
    if s == [] then None
    else if !('0' <= s[|s| - 1] <= '9') then None
    else
      var d := (s[|s| - 1] - '0') as int;
      if |s| == 1 then Some(d) else
      match ParseDigits(s[..|s| - 1]) case None => None case Some(n) => Some(10 * n + d)
  }

  /** strconv.ParseInt(s, 10, 64): an optional sign, at least one digit, in range. */
  function ParseInt(s: string): Option<int> {
    var signed := s != [] && (s[0] == '-' || s[0] == '+');
    match ParseDigits(if signed then s[1..] else s)
    case None => None
    case Some(n) =>
      var x: int := if signed && s[0] == '-' then 0 - n else n;
      if INT64_MIN <= x <= INT64_MAX then Some(x) else None
  }

  lemma {:induction false} ParseUndoesDigits(n: nat)
    ensures ParseDigits(Digits(n)) == Some(n)
  {
    if n >= 10 {
      ParseUndoesDigits(n / 10);
      assert Digits(n)[..|Digits(n)| - 1] == Digits(n / 10);
    }
  }

  lemma ParseSigned(s: string, n: nat)
    requires ParseDigits(s) == Some(n) && INT64_MIN <= 0 - n
    ensures ParseInt(['-'] + s) == Some(0 - n)
  {
    assert (['-'] + s)[1..] == s;
  }

  lemma ParseUnsigned(s: string, n: nat)
    requires ParseDigits(s) == Some(n) && n <= INT64_MAX && s != [] && '0' <= s[0] <= '9'
    ensures ParseInt(s) == Some(n)
  {
  }

  lemma ParseUndoesFormat(x: int)
    requires INT64_MIN <= x <= INT64_MAX
    ensures ParseInt(FormatInt(x)) == Some(x)
    ensures FormatInt(x)[0] == '-' <==> x < 0
    ensures x >= 0 ==> ParseInt(['+'] + FormatInt(x)) == Some(x)
  {
    if x >= 0 { assert (['+'] + Digits(x))[1..] == Digits(x) && Digits(x)[0] in Digits(x); }
    if x < 0 {
      ParseUndoesDigits(-x);
      ParseSigned(Digits(-x), -x);
    } else {
      ParseUndoesDigits(x);
      assert Digits(x)[0] in Digits(x);
      ParseUnsigned(Digits(x), x);
    }
  }

  /** The text before the first separator and the text after it. */
  function Cut(s: string, sep: char): Option<(string, string)> {
    if s == [] then None
    else if s[0] == sep then Some(([], s[1..]))
    else match Cut(s[1..], sep) case None => None case Some((a, b)) => Some(([s[0]] + a, b))
  }

  lemma {:induction false} CutFindsFirst(a: string, b: string, sep: char)
    requires sep !in a
    ensures Cut(a + [sep] + b, sep) == Some((a, b))
  {
    if a == [] {
      assert (a + [sep] + b)[1..] == b;
    } else {
      CutFindsFirst(a[1..], b, sep);
      assert (a + [sep] + b)[1..] == a[1..] + [sep] + b;
      assert [a[0]] + a[1..] == a;
    }
  }

  function PriorityName(p: Priority): string {
    match p
    case Emergency => "EMERGENCY"
    case PermanentDeparture => "PERMANENT_DEPARTURE"
    case PreWarning => "PRE_WARNING"
  }

  function ParsePriority(s: string): Option<Priority> {
    if s == "EMERGENCY" then Some(Emergency)
    else if s == "PERMANENT_DEPARTURE" then Some(PermanentDeparture)
    else if s == "PRE_WARNING" then Some(PreWarning)
    else None
  }

  /** UUID text and base64url: only that the decoder undoes the encoder. */
  datatype Texts = Texts(
    uuidText: int -> string, parseUuid: string -> Option<int>,
    base64: string -> string, unbase64: string -> Option<string>)

  ghost predicate Invertible(t: Texts) {
    && (forall id :: t.parseUuid(t.uuidText(id)) == Some(id))
    && (forall s :: t.unbase64(t.base64(s)) == Some(s))
  }

  function EncodeCursor(t: Texts, k: Key): string {
    t.base64(PriorityName(k.priority) + [':'] + FormatInt(k.createdAt) + [':'] + t.uuidText(k.jobId))
  }

  /** decodeRepairQueueCursor; SplitN with three parts is two cuts. */
  function DecodeCursor(t: Texts, cursor: string): Option<Key> {
    match t.unbase64(cursor)
    case None => None
    case Some(raw) => DecodeRaw(t, raw)
  }

  function DecodeRaw(t: Texts, raw: string): Option<Key> {
    match Cut(raw, ':')
    case None => None
    case Some((name, rest)) =>
      match Cut(rest, ':')
      case None => None
      case Some((nanos, id)) =>
        match (ParsePriority(name), ParseInt(nanos), t.parseUuid(id))
        case (Some(p), Some(n), Some(u)) => Some(Key(p, n, u))
        case _ => None
  }

  /** The cursor codec round-trips for every priority, every int64 nanosecond instant and every id. */
  lemma CursorRoundTrip(t: Texts, k: Key)
    requires Invertible(t) && INT64_MIN <= k.createdAt <= INT64_MAX
    ensures DecodeCursor(t, EncodeCursor(t, k)) == Some(k)
  {
    var name, nanos, id := PriorityName(k.priority), FormatInt(k.createdAt), t.uuidText(k.jobId);
    var raw := name + [':'] + nanos + [':'] + id;
    assert raw == name + [':'] + (nanos + [':'] + id);
    CutFindsFirst(name, nanos + [':'] + id, ':');
    CutFindsFirst(nanos, id, ':');
    ParseUndoesFormat(k.createdAt);
    assert DecodeRaw(t, raw) == Some(k);
  }
}
