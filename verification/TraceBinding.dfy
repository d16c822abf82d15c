/** What a trace hash commits to. It is the root of the texts hashed for the entries. Whether a text
    determines its entry depends on colons in ids and in senders: for entries either executor
    reports it does when both ids are free of colons, when both senders are, and when id and sender
    of one of the two entries are. What is left is a colon in the id of one and in the sender of the
    other, and then it need not (`ColonHidesSender`). */
module TraceBinding {
  import opened Basics
  import opened MerkleTree
  import opened MerkleRepeats
  import opened Merkle
  import opened Trace
  import opened ListCommitment
  import Machine
  import Text

  // ----- Reading a text back at a separator -----

  lemma SeparatorInside<T>(c: T, a: seq<T>, r: seq<T>, b: seq<T>, s: seq<T>)
    requires a + [c] + r == b + [c] + s && |a| < |b|
    ensures c in b
  {
    assert (a + [c] + r)[|a|] == c == b[|a|];
  }

  /** The part before the first separator and the rest behind it are determined by the whole. */
  lemma SplitFirst<T>(c: T, a: seq<T>, r: seq<T>, b: seq<T>, s: seq<T>)
    requires c !in a && c !in b && a + [c] + r == b + [c] + s
    ensures a == b && r == s
  {
    var t := a + [c] + r;
    if |a| < |b| {
      SeparatorInside(c, a, r, b, s);
    } else if |b| < |a| {
      SeparatorInside(c, b, s, a, r);
    }
    assert a == t[..|a|] && b == t[..|b|];
    assert r == t[|a| + 1..] && s == t[|b| + 1..];
  }

  lemma SamePrefix<T>(p: seq<T>, r: seq<T>, s: seq<T>)
    requires p + r == p + s
    ensures r == s
  {
    assert r == (p + r)[|p|..] && s == (p + s)[|p|..];
  }

  lemma SeparatorAfter<T>(c: T, a: seq<T>, r: seq<T>, b: seq<T>, s: seq<T>)
    requires a + [c] + r == b + [c] + s && |a| < |b|
    ensures c in r
  {
    var t := a + [c] + r;
    assert |t| == |a| + 1 + |r| && t[|b|] == (b + [c] + s)[|b|] == c;
    assert t[|b|] == r[|b| - |a| - 1];
  }

  /** And so are the part behind the last separator and the rest before it. */
  lemma SplitLast<T>(c: T, a: seq<T>, r: seq<T>, b: seq<T>, s: seq<T>)
    requires c !in r && c !in s && a + [c] + r == b + [c] + s
    ensures a == b && r == s
  {
    var t := a + [c] + r;
    if |a| < |b| {
      SeparatorAfter(c, a, r, b, s);
    } else if |b| < |a| {
      SeparatorAfter(c, b, s, a, r);
    }
    assert a == t[..|a|] && b == t[..|b|];
    assert r == t[|a| + 1..] && s == t[|b| + 1..];
  }

  lemma SameSuffix<T>(a: seq<T>, b: seq<T>, r: seq<T>)
    requires a + r == b + r
    ensures a == b
  {
    assert a == (a + r)[..|a|] && b == (b + r)[..|b|];
  }

  /** The last labelled field of a text. */
  lemma LastField<T>(c: T, name: seq<T>, a: seq<T>, f: seq<T>, b: seq<T>, g: seq<T>)
    requires c !in f && c !in g
    requires a + ([c] + name + [c]) + f == b + ([c] + name + [c]) + g
    ensures a == b && f == g
  {
    assert a + ([c] + name + [c]) + f == (a + ([c] + name)) + [c] + f;
    assert b + ([c] + name + [c]) + g == (b + ([c] + name)) + [c] + g;
    SplitLast(c, a + ([c] + name), f, b + ([c] + name), g);
    SameSuffix(a, b, [c] + name);
  }

  /** A name that the joined list shows as one name. */
  predicate IsPlain(name: string) { name != "" && ',' !in name && ':' !in name }

  predicate ArePlain(names: seq<string>) { forall i :: 0 <= i < |names| ==> IsPlain(names[i]) }

  lemma {:induction false} JoinHasNoColon(names: seq<string>)
    requires ArePlain(names)
    ensures ':' !in Join(names)
  {
    if |names| > 1 {
      JoinHasNoColon(names[1..]);
    }
  }

  lemma JoinOfMany(names: seq<string>)
    requires |names| > 1
    ensures Join(names) == names[0] + [','] + Join(names[1..])
  {}

  lemma OneIsNotMany(a: seq<string>, b: seq<string>)
    requires ArePlain(a) && |a| <= 1 < |b|
    ensures Join(a) != Join(b)
  {
    JoinOfMany(b);
    assert Join(b)[|b[0]|] == ',';
    assert ',' !in Join(a);
  }

  lemma {:induction false} JoinInjective(a: seq<string>, b: seq<string>)
    requires ArePlain(a) && ArePlain(b) && Join(a) == Join(b)
    ensures a == b
  {
    if |a| <= 1 && |b| <= 1 {
      assert a != [] ==> a == [a[0]];
      assert b != [] ==> b == [b[0]];
    } else if |a| <= 1 {
      OneIsNotMany(a, b);
    } else if |b| <= 1 {
      OneIsNotMany(b, a);
    } else {
      JoinOfMany(a);
      JoinOfMany(b);
      SplitFirst(',', a[0], Join(a[1..]), b[0], Join(b[1..]));
      JoinInjective(a[1..], b[1..]);
      assert a == [a[0]] + a[1..] && b == [b[0]] + b[1..];
    }
  }

  // ----- Entries -----

  /** What an entry contributes to the trace hash. */
  datatype Line = Line(txId: string, success: bool, compute: u64, read: seq<string>, written: seq<string>)

  function LineOf(e: TraceEntry): Line { Line(e.txId, e.success, e.computeUsed, e.accountsRead, e.accountsWritten) }

  predicate IsPlainLine(l: Line) { ArePlain(l.read) && ArePlain(l.written) }

  function Flag(b: bool): string { if b then "true" else "false" }

  function AccountsText(read: seq<string>, written: seq<string>): string {
    Join(read) + [':'] + ("writes:" + Join(written))
  }

  function FromReads(l: Line): string { "reads:" + AccountsText(l.read, l.written) }

  function FromCompute(l: Line): string { "cu:" + (Text.Dec(l.compute) + [':'] + FromReads(l)) }

  function FromSuccess(l: Line): string { "success:" + (Flag(l.success) + [':'] + FromCompute(l)) }

  function LineText(l: Line): string { "tx:" + (l.txId + [':'] + FromSuccess(l)) }

  lemma Regroup<T>(p: seq<T>, c: T, name: seq<T>, field: seq<T>, rest: seq<T>)
    ensures p + ([c] + name) + field + [c] + rest == p + [c] + (name + (field + [c] + rest))
  {}

  lemma Labels()
    ensures ":success:" == [':'] + "success:" && ":cu:" == [':'] + "cu:"
    ensures ":reads:" == [':'] + "reads:" && ":writes:" == [':'] + "writes:"
  {}

  /** Labelled fields written one after the other are the same text grouped from the right. */
  lemma RegroupAll<T>(c: T, start: seq<T>, id: seq<T>, l1: seq<T>, f1: seq<T>, l2: seq<T>, f2: seq<T>,
                      l3: seq<T>, f3: seq<T>, l4: seq<T>, f4: seq<T>)
    ensures start + id + ([c] + l1) + f1 + ([c] + l2) + f2 + ([c] + l3) + f3 + ([c] + l4) + f4
         == start + (id + [c] + (l1 + (f1 + [c] + (l2 + (f2 + [c] + (l3 + (f3 + [c] + (l4 + f4))))))))
  {
    var p1 := start + id;
    var p2 := p1 + ([c] + l1) + f1;
    var p3 := p2 + ([c] + l2) + f2;
    var p4 := p3 + ([c] + l3) + f3;
    var r3 := l4 + f4;
    var r2 := l3 + (f3 + [c] + r3);
    var r1 := l2 + (f2 + [c] + r2);
    assert p4 + ([c] + l4) + f4 == p4 + [c] + r3;
    Regroup(p3, c, l3, f3, r3);
    Regroup(p2, c, l2, f2, r2);
    Regroup(p1, c, l1, f1, r1);
    assert p1 + [c] + (l1 + (f1 + [c] + r1)) == start + (id + [c] + (l1 + (f1 + [c] + r1)));
  }

  function LineHash(H: HashFn, l: Line): string { HashTraceEntry(H, l.txId, l.success, l.compute, l.read, l.written) }

  /** The text hashed for an entry, grouped from the right. */
  lemma HashedText(H: HashFn, l: Line)
    ensures LineHash(H, l) == H(LineText(l))
  {
    Labels();
    RegroupAll(':', "tx:", l.txId, "success:", Flag(l.success), "cu:", Text.Dec(l.compute),
               "reads:", Join(l.read), "writes:", Join(l.written));
  }

  lemma DecHasNoColon(n: nat)
    ensures ':' !in Text.Dec(n)
  {
    Text.DigitsAreDigits(n, Text.Decimal);
  }

  lemma SameCompute(l: Line, m: Line)
    requires FromCompute(l) == FromCompute(m)
    ensures l.compute == m.compute && FromReads(l) == FromReads(m)
  {
    SamePrefix("cu:", Text.Dec(l.compute) + [':'] + FromReads(l), Text.Dec(m.compute) + [':'] + FromReads(m));
    DecHasNoColon(l.compute);
    DecHasNoColon(m.compute);
    SplitFirst(':', Text.Dec(l.compute), FromReads(l), Text.Dec(m.compute), FromReads(m));
    Text.DecInjective(l.compute, m.compute);
  }

  lemma SameSuccess(l: Line, m: Line)
    requires FromSuccess(l) == FromSuccess(m)
    ensures l.success == m.success && FromCompute(l) == FromCompute(m)
  {
    SamePrefix("success:", Flag(l.success) + [':'] + FromCompute(l), Flag(m.success) + [':'] + FromCompute(m));
    SplitFirst(':', Flag(l.success), FromCompute(l), Flag(m.success), FromCompute(m));
    assert |Flag(true)| == 4 && |Flag(false)| == 5;
  }

  /** With colon-free ids everything in front of the account lists is determined. */
  lemma SameFront(l: Line, m: Line)
    requires ':' !in l.txId && ':' !in m.txId && LineText(l) == LineText(m)
    ensures l.txId == m.txId && l.success == m.success && l.compute == m.compute
    ensures AccountsText(l.read, l.written) == AccountsText(m.read, m.written)
  {
    SamePrefix("tx:", l.txId + [':'] + FromSuccess(l), m.txId + [':'] + FromSuccess(m));
    SplitFirst(':', l.txId, FromSuccess(l), m.txId, FromSuccess(m));
    SameSuccess(l, m);
    SameCompute(l, m);
    SamePrefix("reads:", AccountsText(l.read, l.written), AccountsText(m.read, m.written));
  }

  // ----- Lines an executor reports, from the left -----

  /** The account lists of a report: none, the sender of a refused transfer, sender and target of
      a transfer, the cell set, the cell incremented. */
  datatype Accounts = Quiet | Refused(sender: string) | Paid(sender: string, target: nat) | Wrote(cell: nat) | Added(cell: nat)

  function Read(k: Accounts): seq<string> {
    match k
    case Quiet => []
    case Refused(s) => [s]
    case Paid(s, n) => [s, Machine.AccountKey(n)]
    case Wrote(i) => []
    case Added(i) => [Machine.DataKey(i)]
  }

  function Written(k: Accounts): seq<string> {
    match k
    case Quiet => []
    case Refused(s) => []
    case Paid(s, n) => [s, Machine.AccountKey(n)]
    case Wrote(i) => [Machine.DataKey(i)]
    case Added(i) => [Machine.DataKey(i)]
  }

  /** Failures without accounts cost less than a refused transfer, which costs 5000. */
  predicate HasAccounts(l: Line, k: Accounts) {
    && l.read == Read(k) && l.written == Written(k)
    && (k.Quiet? ==> l.success || l.compute < 5000)
    && (k.Refused? ==> !l.success && l.compute == 5000)
  }

  ghost predicate IsReport(l: Line) { exists k :: HasAccounts(l, k) }

  function Body(k: Accounts): string { AccountsText(Read(k), Written(k)) }

  predicate NamesKey(k: Accounts) { k.Paid? || k.Wrote? || k.Added? }

  /** The part of a body in front of its last underscore, and the number behind it. */
  function Head(k: Accounts): string
    requires NamesKey(k)
  {
    match k
    case Paid(s, n) => s + (",account_" + Text.Dec(n) + ":writes:") + s + ",account"
    case Wrote(i) => ":writes:data"
    case Added(i) => "data_" + Text.Dec(i) + ":writes:data"
  }

  function Number(k: Accounts): nat
    requires NamesKey(k)
  {
    match k case Paid(_, n) => n case Wrote(i) => i case Added(i) => i
  }

  lemma JoinOfTwo(a: string, b: string)
    ensures Join([a, b]) == a + "," + b
  {
    assert [a, b][1..] == [b];
  }

  function Payee(n: nat): string { ",account_" + Text.Dec(n) }

  lemma PaidJoin(s: string, n: nat)
    ensures Join(Read(Paid(s, n))) == Join(Written(Paid(s, n))) == s + Payee(n)
  {
    JoinOfTwo(s, Machine.AccountKey(n));
    assert "," + ("account_" + Text.Dec(n)) == Payee(n);
  }

  lemma PaidParts<T>(s: seq<T>, to: seq<T>, c: T, name: seq<T>, front: seq<T>, u: T, d: seq<T>)
    requires to == front + [u] + d
    ensures s + to + [c] + (name + (s + to)) == s + (to + ([c] + name)) + s + front + [u] + d
  {}

  lemma PaidLabels(n: nat)
    ensures Payee(n) == ",account" + ['_'] + Text.Dec(n)
    ensures Payee(n) + ([':'] + "writes:") == ",account_" + Text.Dec(n) + ":writes:"
  {}

  lemma PaidBody(s: string, n: nat)
    ensures Body(Paid(s, n)) == Head(Paid(s, n)) + ['_'] + Text.Dec(n)
  {
    PaidJoin(s, n);
    PaidLabels(n);
    PaidParts(s, Payee(n), ':', "writes:", ",account", '_', Text.Dec(n));
  }

  lemma CellBody(k: Accounts)
    requires k.Wrote? || k.Added?
    ensures Body(k) == Head(k) + ['_'] + Text.Dec(Number(k))
  {
    match k
    case Wrote(i) => assert Join([]) == "";
    case Added(i) =>
  }

  lemma BodyParts(k: Accounts)
    requires NamesKey(k)
    ensures Body(k) == Head(k) + ['_'] + Text.Dec(Number(k))
  {
    if k.Paid? {
      PaidBody(k.sender, k.target);
    } else {
      CellBody(k);
    }
  }

  lemma LastIs(k: Accounts)
    ensures Body(k) != ""
    ensures var c := Body(k)[|Body(k)| - 1]; if NamesKey(k) then Text.IsDigit(c) else c == ':'
  {
    if NamesKey(k) {
      BodyParts(k);
      Text.DigitsAreDigits(Number(k), Text.Decimal);
      var d := Text.Dec(Number(k));
      assert d[|d| - 1] in d;
    } else {
      assert Body(k) == Join(Read(k)) + ":writes:";
    }
  }

  lemma DecHasNoUnderscore(n: nat)
    ensures '_' !in Text.Dec(n)
  {
    Text.DigitsAreDigits(n, Text.Decimal);
  }

  lemma SameHead(j: Accounts, k: Accounts)
    requires NamesKey(j) && NamesKey(k) && Body(j) == Body(k)
    ensures Head(j) == Head(k) && Number(j) == Number(k)
  {
    BodyParts(j);
    BodyParts(k);
    DecHasNoUnderscore(Number(j));
    DecHasNoUnderscore(Number(k));
    SplitLast('_', Head(j), Text.Dec(Number(j)), Head(k), Text.Dec(Number(k)));
    Text.DecInjective(Number(j), Number(k));
  }

  /** The letters a head begins and ends with tell the three kinds apart. */
  lemma HeadKind(k: Accounts)
    requires NamesKey(k)
    ensures Head(k) != "" && Head(k)[|Head(k)| - 1] == (if k.Paid? then 't' else 'a')
    ensures !k.Paid? ==> Head(k)[0] == (if k.Wrote? then ':' else 'd')
  {}

  lemma SamePayer<T>(s: seq<T>, m: seq<T>, t: seq<T>, e: seq<T>)
    requires s + m + s + e == t + m + t + e
    ensures s == t
  {
    assert |s| == |t|;
    assert s == (s + m + s + e)[..|s|] && t == (t + m + t + e)[..|t|];
  }

  lemma SameKeyBody(j: Accounts, k: Accounts)
    requires NamesKey(j) && NamesKey(k) && Body(j) == Body(k)
    ensures j == k
  {
    SameHead(j, k);
    HeadKind(j);
    HeadKind(k);
    if j.Paid? && k.Paid? {
      SamePayer(j.sender, ",account_" + Text.Dec(j.target) + ":writes:", k.sender, ",account");
    }
  }

  /** One text for two kinds of account lists is possible in one way only: no accounts at all, and
      a sender with the empty name. */
  lemma SameBody(j: Accounts, k: Accounts)
    requires Body(j) == Body(k)
    ensures j == k || (j == Quiet && k == Refused("")) || (j == Refused("") && k == Quiet)
  {
    LastIs(j);
    LastIs(k);
    if NamesKey(j) {
      SameKeyBody(j, k);
    } else {
      assert Body(j) == Join(Read(j)) + ":writes:" && Body(k) == Join(Read(k)) + ":writes:";
      SameSuffix(Join(Read(j)), Join(Read(k)), ":writes:");
    }
  }

  /** Two reports with colon-free ids that are hashed as one text are one report, whatever the
      sender's name contains. */
  lemma ReportTextInjective(l: Line, m: Line)
    requires ':' !in l.txId && ':' !in m.txId && IsReport(l) && IsReport(m) && LineText(l) == LineText(m)
    ensures l == m
  {
    SameFront(l, m);
    SameAccounts(l, m);
  }

  // ----- Lines with plain names, from the right -----

  /** Two lines with plain names that are hashed as one text are one line, whatever their ids. */
  lemma PlainTextInjective(l: Line, m: Line)
    requires IsPlainLine(l) && IsPlainLine(m) && LineText(l) == LineText(m)
    ensures l == m
  {
    LeftToRight(l);
    LeftToRight(m);
    JoinHasNoColon(l.written);
    JoinHasNoColon(m.written);
    LastField(':', "writes", UpToReads(l), Join(l.written), UpToReads(m), Join(m.written));
    JoinHasNoColon(l.read);
    JoinHasNoColon(m.read);
    LastField(':', "reads", UpToCompute(l), Join(l.read), UpToCompute(m), Join(m.read));
    SameStart(l, m);
    JoinInjective(l.read, m.read);
    JoinInjective(l.written, m.written);
  }

  function UpToCompute(l: Line): string {
    "tx:" + l.txId + ":success:" + Flag(l.success) + ":cu:" + Text.Dec(l.compute)
  }

  function UpToReads(l: Line): string { UpToCompute(l) + ":reads:" + Join(l.read) }

  lemma LeftToRight(l: Line)
    ensures LineText(l) == UpToReads(l) + ":writes:" + Join(l.written)
    ensures ":writes:" == [':'] + "writes" + [':'] && ":reads:" == [':'] + "reads" + [':']
  {
    Labels();
    RegroupAll(':', "tx:", l.txId, "success:", Flag(l.success), "cu:", Text.Dec(l.compute),
               "reads:", Join(l.read), "writes:", Join(l.written));
  }

  lemma SameStart(l: Line, m: Line)
    requires UpToCompute(l) == UpToCompute(m)
    ensures l.txId == m.txId && l.success == m.success && l.compute == m.compute
  {
    DecHasNoColon(l.compute);
    DecHasNoColon(m.compute);
    assert ":cu:" == [':'] + "cu" + [':'] && ":success:" == [':'] + "success" + [':'];
    LastField(':', "cu", "tx:" + l.txId + ":success:" + Flag(l.success), Text.Dec(l.compute),
              "tx:" + m.txId + ":success:" + Flag(m.success), Text.Dec(m.compute));
    LastField(':', "success", "tx:" + l.txId, Flag(l.success), "tx:" + m.txId, Flag(m.success));
    SamePrefix("tx:", l.txId, m.txId);
    Text.DecInjective(l.compute, m.compute);
    assert |Flag(true)| == 4 && |Flag(false)| == 5;
  }

  // ----- Reports with colon-free senders, from the right -----

  predicate ColonFreeNames(l: Line) { ':' !in Join(l.read) && ':' !in Join(l.written) }

  /** Two reports with colon-free senders that are hashed as one text are one report, whatever
      their ids contain. */
  lemma SenderTextInjective(l: Line, m: Line)
    requires ColonFreeNames(l) && ColonFreeNames(m) && IsReport(l) && IsReport(m) && LineText(l) == LineText(m)
    ensures l == m
  {
    LeftToRight(l);
    LeftToRight(m);
    LastField(':', "writes", UpToReads(l), Join(l.written), UpToReads(m), Join(m.written));
    LastField(':', "reads", UpToCompute(l), Join(l.read), UpToCompute(m), Join(m.read));
    SameStart(l, m);
    SameAccounts(l, m);
  }

  lemma SameAccounts(l: Line, m: Line)
    requires IsReport(l) && IsReport(m) && l.success == m.success && l.compute == m.compute
    requires AccountsText(l.read, l.written) == AccountsText(m.read, m.written)
    ensures l.read == m.read && l.written == m.written
  {
    var j :| HasAccounts(l, j);
    var k :| HasAccounts(m, k);
    SameBody(j, k);
  }

  // ----- One report without colons, by counting them -----

  function Count<T(==)>(c: T, s: seq<T>): nat { multiset(s)[c] }

  lemma CountNone<T>(c: T, s: seq<T>)
    ensures Count(c, s) == 0 <==> c !in s
  {
    assert c in s <==> c in multiset(s);
  }

  lemma CountFields<T>(c: T, p: seq<T>, x1: seq<T>, a1: seq<T>, x2: seq<T>, a2: seq<T>, x3: seq<T>,
                       a3: seq<T>, x4: seq<T>, a4: seq<T>, x5: seq<T>)
    ensures Count(c, p + x1 + a1 + x2 + a2 + x3 + a3 + x4 + a4 + x5) ==
      Count(c, p) + Count(c, a1) + Count(c, a2) + Count(c, a3) + Count(c, a4)
      + (Count(c, x1) + Count(c, x2) + Count(c, x3) + Count(c, x4) + Count(c, x5))
  {}

  /** Two texts with the same labels contain a character equally often outside of them. */
  lemma SameCount<T>(c: T, p: seq<T>, a1: seq<T>, a2: seq<T>, a3: seq<T>, a4: seq<T>,
                     x1: seq<T>, x2: seq<T>, x3: seq<T>, x4: seq<T>, x5: seq<T>,
                     y1: seq<T>, y2: seq<T>, y3: seq<T>, y4: seq<T>, y5: seq<T>)
    requires p + x1 + a1 + x2 + a2 + x3 + a3 + x4 + a4 + x5 == p + y1 + a1 + y2 + a2 + y3 + a3 + y4 + a4 + y5
    ensures Count(c, x1) + Count(c, x2) + Count(c, x3) + Count(c, x4) + Count(c, x5)
         == Count(c, y1) + Count(c, y2) + Count(c, y3) + Count(c, y4) + Count(c, y5)
  {
    CountFields(c, p, x1, a1, x2, a2, x3, a3, x4, a4, x5);
    CountFields(c, p, y1, a1, y2, a2, y3, a3, y4, a4, y5);
  }

  lemma FlagHasNoColon(b: bool)
    ensures ':' !in Flag(b)
  {}

  lemma SameColons(l: Line, m: Line)
    requires LineText(l) == LineText(m)
    requires ':' !in l.txId && ':' !in Join(l.read) && ':' !in Join(l.written)
    ensures ':' !in m.txId
  {
    LeftToRight(l);
    LeftToRight(m);
    SameCount(':', "tx:", ":success:", ":cu:", ":reads:", ":writes:",
              l.txId, Flag(l.success), Text.Dec(l.compute), Join(l.read), Join(l.written),
              m.txId, Flag(m.success), Text.Dec(m.compute), Join(m.read), Join(m.written));
    CountNone(':', l.txId);
    FlagHasNoColon(l.success);
    CountNone(':', Flag(l.success));
    DecHasNoColon(l.compute);
    CountNone(':', Text.Dec(l.compute));
    CountNone(':', Join(l.read));
    CountNone(':', Join(l.written));
    CountNone(':', m.txId);
  }

  predicate ColonFree(l: Line) { ':' !in l.txId && ColonFreeNames(l) }

  /** A report with no colon of its own shares its text with no other report, whatever that one's
      id and sender contain. */
  lemma ColonFreeTextDecides(l: Line, m: Line)
    requires ColonFree(l) && IsReport(l) && IsReport(m) && LineText(l) == LineText(m)
    ensures l == m
  {
    SameColons(l, m);
    ReportTextInjective(l, m);
  }

  // ----- In all other cases -----

  /** The report of a transfer of `compute` units. */
  function PaidLine(txId: string, sender: string, target: nat, compute: u64): Line {
    Line(txId, true, compute, Read(Paid(sender, target)), Written(Paid(sender, target)))
  }

  lemma PaidText(txId: string, s: string, target: nat, compute: u64)
    ensures LineText(PaidLine(txId, s, target, compute)) ==
      "tx:" + txId + (":success:true:cu:" + Text.Dec(compute) + ":reads:") + s
      + (Payee(target) + ":writes:") + s + Payee(target)
  {
    LeftToRight(PaidLine(txId, s, target, compute));
    PaidJoin(s, target);
    GroupPaid("tx:" + txId, ":success:", "true", ":cu:", Text.Dec(compute), ":reads:", s, Payee(target), ":writes:");
    assert ":success:" + "true" + ":cu:" == ":success:true:cu:";
  }

  lemma GroupPaid<T>(p: seq<T>, a: seq<T>, b: seq<T>, c: seq<T>, d: seq<T>, e: seq<T>, s: seq<T>, to: seq<T>, w: seq<T>)
    ensures p + a + b + c + d + e + (s + to) + w + (s + to) == p + (a + b + c + d + e) + s + (to + w) + s + to
  {}

  lemma Fold<T>(p: seq<T>, id: seq<T>, k: seq<T>, x: seq<T>, m: seq<T>, e: seq<T>)
    ensures p + id + k + (k + x + m + x) + m + (k + x + m + x) + e
         == p + (id + k + k + x + m + x + m) + k + x + m + x + e
  {}

  /** A payer, made of another payer's name, and the id that makes up for it. */
  function LongSender(x: string, target: nat, compute: u64): string {
    ":success:true:cu:" + Text.Dec(compute) + ":reads:" + x + (Payee(target) + ":writes:") + x
  }

  function LongId(id: string, x: string, target: nat, compute: u64): string {
    var k, to := ":success:true:cu:" + Text.Dec(compute) + ":reads:", Payee(target) + ":writes:";
    id + k + k + x + to + x + to
  }

  /** A transfer by a sender with colons and one under an id with colons: two different reports
      hashed as one text, for every first id and every second sender. */
  lemma ColonHidesSender(id: string, x: string, target: nat, compute: u64)
    ensures var l := PaidLine(id, LongSender(x, target, compute), target, compute);
            var m := PaidLine(LongId(id, x, target, compute), x, target, compute);
            && IsReport(l) && IsReport(m) && l.txId != m.txId && l.read != m.read && LineText(l) == LineText(m)
  {
    var k, to := ":success:true:cu:" + Text.Dec(compute) + ":reads:", Payee(target) + ":writes:";
    var s, longer := LongSender(x, target, compute), LongId(id, x, target, compute);
    PaidText(id, s, target, compute);
    PaidText(longer, x, target, compute);
    Fold("tx:", id, k, x, to, Payee(target));
    assert HasAccounts(PaidLine(id, s, target, compute), Paid(s, target));
    assert HasAccounts(PaidLine(longer, x, target, compute), Paid(x, target));
    assert |longer| > |id| && |s| > |x|;
    assert Read(Paid(s, target))[0] == s && Read(Paid(x, target))[0] == x;
  }

  // ----- Traces -----

  function Lines(es: seq<TraceEntry>): (ls: seq<Line>)
    ensures |ls| == |es| && forall i :: 0 <= i < |es| ==> ls[i] == LineOf(es[i])
  {
    seq(|es|, i requires 0 <= i < |es| => LineOf(es[i]))
  }

  function TextsOf(ls: seq<Line>): seq<string> { Map(LineText, ls) }

  /** `trace_hash`, of the lines. */
  function LinesRoot(H: HashFn, ls: seq<Line>): string { ListRoot(H, "empty", TextsOf(ls)) }

  ghost function HashedForTrace(H: HashFn, ls: seq<Line>): set<string> { Hashed(H, "empty", TextsOf(ls)) }

  lemma RootOfLines(H: HashFn, hashes: seq<string>, ls: seq<Line>)
    requires |hashes| == |ls| && forall i :: 0 <= i < |ls| ==> hashes[i] == LineHash(H, ls[i])
    ensures Root(H, hashes) == LinesRoot(H, ls)
  {
    var xs := Map(H, TextsOf(ls));
    forall i | 0 <= i < |ls| ensures hashes[i] == xs[i] {
      HashedText(H, ls[i]);
    }
    assert hashes == xs;
  }

  /** The trace's hash is the root of its lines. */
  lemma TraceHashIsLinesRoot(H: HashFn, batchId: string, pre: string, es: seq<TraceEntry>, post: string)
    ensures TraceOf(H, batchId, pre, es, post).traceHash == LinesRoot(H, Lines(es))
  {
    RootOfLines(H, EntryHashes(H, es), Lines(es));
  }

  lemma KeysHaveNoColon(i: nat)
    ensures ':' !in Machine.AccountKey(i) && ':' !in Machine.DataKey(i)
  {
    DecHasNoColon(i);
  }

  /** A report whose sender's name has no colon has none in its account lists. */
  lemma ColonFreeReport(l: Line, k: Accounts)
    requires HasAccounts(l, k) && (k.Refused? || k.Paid? ==> ':' !in k.sender)
    ensures ColonFreeNames(l)
  {
    if k.Paid? {
      KeysHaveNoColon(k.target);
      JoinOfTwo(k.sender, Machine.AccountKey(k.target));
    } else if NamesKey(k) {
      KeysHaveNoColon(Number(k));
    }
  }

  ghost predicate AreReports(ls: seq<Line>) { forall i :: 0 <= i < |ls| ==> IsReport(ls[i]) }

  predicate ColonFreeIds(ls: seq<Line>) { forall i :: 0 <= i < |ls| ==> ':' !in ls[i].txId }

  predicate ColonFreeSenders(ls: seq<Line>) { forall i :: 0 <= i < |ls| ==> ColonFreeNames(ls[i]) }

  /** The ways to rule out that a text stands for different reports of the two lists. */
  predicate Separable(ls: seq<Line>, ms: seq<Line>) {
    || (ColonFreeIds(ls) && ColonFreeSenders(ls))
    || (ColonFreeIds(ms) && ColonFreeSenders(ms))
    || (ColonFreeIds(ls) && ColonFreeIds(ms))
    || (ColonFreeSenders(ls) && ColonFreeSenders(ms))
  }

  lemma ReportsLegible(ls: seq<Line>, ms: seq<Line>)
    requires AreReports(ls) && AreReports(ms) && Separable(ls, ms)
    ensures Legible(LineText, ls, ms)
  {
    forall i, j | 0 <= i < |ls| && 0 <= j < |ms| && LineText(ls[i]) == LineText(ms[j]) ensures ls[i] == ms[j] {
      if ColonFreeIds(ls) && ColonFreeSenders(ls) {
        ColonFreeTextDecides(ls[i], ms[j]);
      } else if ColonFreeIds(ms) && ColonFreeSenders(ms) {
        ColonFreeTextDecides(ms[j], ls[i]);
      } else if ColonFreeIds(ls) {
        ReportTextInjective(ls[i], ms[j]);
      } else {
        SenderTextInjective(ls[i], ms[j]);
      }
    }
  }

  lemma TextsHaveColons(ls: seq<Line>)
    ensures forall t :: t in TextsOf(ls) ==> ':' in t
  {
    forall t | t in TextsOf(ls) ensures ':' in t {
      var i :| 0 <= i < |ls| && TextsOf(ls)[i] == t;
      assert LineText(ls[i])[2] == ':';
    }
  }

  /** Traces of any lengths and with any names that have one trace hash: their lines' texts are
      alike, or two of the strings hashed for them collide. */
  lemma TraceHashBinding(H: HashFn, ls: seq<Line>, ms: seq<Line>)
    requires HexDigests(H) && LinesRoot(H, ls) == LinesRoot(H, ms)
    ensures Alike(TextsOf(ls), TextsOf(ms)) || HashCollision(H, HashedForTrace(H, ls) + HashedForTrace(H, ms))
  {
    TextsHaveColons(ls);
    TextsHaveColons(ms);
    ListBinding(H, "empty", TextsOf(ls), TextsOf(ms));
  }

  /** Of reports that can be told apart, the lines themselves. */
  lemma LinesAlike(ls: seq<Line>, ms: seq<Line>)
    requires AreReports(ls) && AreReports(ms) && Separable(ls, ms)
    ensures Alike(TextsOf(ls), TextsOf(ms)) <==> Alike(ls, ms)
  {
    if Alike(ls, ms) {
      AlikeTexts(LineText, ls, ms);
    } else if Alike(TextsOf(ls), TextsOf(ms)) {
      ReportsLegible(ls, ms);
      AlikeLifts(LineText, ls, ms);
    }
  }

  /** Of two alike traces the longer only repeats lines of the shorter, behind it. */
  ghost predicate Extends(longer: seq<Line>, shorter: seq<Line>) {
    && |shorter| <= |longer| && shorter == longer[..|shorter|]
    && forall i :: |shorter| <= i < |longer| ==> longer[i] in shorter
  }

  lemma AlikeExtends(ls: seq<Line>, ms: seq<Line>)
    requires Alike(ls, ms)
    ensures if |ls| <= |ms| then Extends(ms, ls) else Extends(ls, ms)
  {
    if ls != [] {
      if |ls| <= |ms| {
        SameRowMeaning(ls, ms);
      } else {
        SameRowMeaning(ms, ls);
      }
    }
  }

  /** A trace hash cannot tell lines from the same lines with the last block repeated, the largest
      power of two that divides their number, unless that is all of them. */
  lemma RepeatedBlockHidden(H: HashFn, ls: seq<Line>)
    requires ls != [] && Block(|ls|) < |ls|
    ensures Alike(ls, Repeated(ls)) && LinesRoot(H, Repeated(ls)) == LinesRoot(H, ls)
  {
    RepeatedBlock(ls);
    AlikeTexts(LineText, ls, Repeated(ls));
    AlikeRoots(H, "empty", TextsOf(ls), TextsOf(Repeated(ls)));
  }
}
