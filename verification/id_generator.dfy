/**
 * IdGenerator: the textual identifiers of users ("usr-" + 12 hex digits), transactions ("tan-" + 12 hex
 * digits) and accounts ("01" + six decimal digits). The random draws are parameters: a UUID for the first two,
 * a value of `nextInt(900000)` for account numbers.
 */
module IdGenerator {
  import opened Text

  type Nibble = x: int | 0 <= x < 16

  /** The 128 bits of a `java.util.UUID` as 32 hexadecimal digits, most significant first. */
  type Uuid = s: seq<Nibble> | |s| == 32 witness seq(32, _ => 0)

  /** A value returned by `random.nextInt(900000)`. */
  type AccountDraw = x: int | 0 <= x < 900000

  const UserIdPrefix := "usr-"
  const TransactionIdPrefix := "tan-"
  const AccountNumberPrefix := "01"

  function HexChar(d: Nibble): char {
    "0123456789abcdef"[d]
  }

  predicate IsLowerHex(c: char) {
    '0' <= c <= '9' || 'a' <= c <= 'f'
  }

  /** Lower-case hexadecimal text of a digit sequence. */
  function Hex(s: seq<Nibble>): (r: string)
    ensures |r| == |s|
    ensures forall i :: 0 <= i < |s| ==> r[i] == HexChar(s[i])
  {
    seq(|s|, i requires 0 <= i < |s| => HexChar(s[i]))
  }

  /** `UUID.toString()`: 8-4-4-4-12 lower-case hex digits separated by dashes. */
  function UuidText(u: Uuid): string {
    Hex(u[..8]) + "-" + Hex(u[8..12]) + "-" + Hex(u[12..16]) + "-" + Hex(u[16..20]) + "-" + Hex(u[20..])
  }

  /** `String.replace("-", "")`. */
  function RemoveDashes(s: string): string {
    if s == [] then [] else (if s[0] == '-' then [] else [s[0]]) + RemoveDashes(s[1..])
  }

  lemma {:induction false} RemoveDashesAppend(a: string, b: string)
    ensures RemoveDashes(a + b) == RemoveDashes(a) + RemoveDashes(b)
  {
    if a == [] {
      assert a + b == b;
    } else {
      assert (a + b)[0] == a[0] && (a + b)[1..] == a[1..] + b;
      RemoveDashesAppend(a[1..], b);
    }
  }

  lemma {:induction false} RemoveDashesOfHex(s: seq<Nibble>)
    ensures RemoveDashes(Hex(s)) == Hex(s)
  {
    if s != [] {
      assert Hex(s)[1..] == Hex(s[1..]);
      RemoveDashesOfHex(s[1..]);
    }
  }

  lemma HexAppend(a: seq<Nibble>, b: seq<Nibble>)
    ensures Hex(a + b) == Hex(a) + Hex(b)
  {
  }

  /** Joining hex text onto a dash-free prefix with a dash drops the dash. */
  lemma DashJoin(x: string, s: seq<Nibble>)
    ensures RemoveDashes(x + "-" + Hex(s)) == RemoveDashes(x) + Hex(s)
  {
    RemoveDashesAppend(x + "-", Hex(s));
    RemoveDashesAppend(x, "-");
    RemoveDashesOfHex(s);
  }

  /** The five groups of a UUID's digits, in order, are all its digits. */
  lemma HexOfGroups(u: Uuid)
    ensures Hex(u[..8]) + Hex(u[8..12]) + Hex(u[12..16]) + Hex(u[16..20]) + Hex(u[20..]) == Hex(u)
  {
    assert u == u[..8] + u[8..12] + u[12..16] + u[16..20] + u[20..];
    HexAppend(u[..8] + u[8..12] + u[12..16] + u[16..20], u[20..]);
    HexAppend(u[..8] + u[8..12] + u[12..16], u[16..20]);
    HexAppend(u[..8] + u[8..12], u[12..16]);
    HexAppend(u[..8], u[8..12]);
  }

  /** Taking the dashes out of a UUID's text leaves its 32 hex digits. */
  lemma UuidTextWithoutDashes(u: Uuid)
    ensures RemoveDashes(UuidText(u)) == Hex(u)
  {
    var a, b, c, d, e := Hex(u[..8]), Hex(u[8..12]), Hex(u[12..16]), Hex(u[16..20]), Hex(u[20..]);
    RemoveDashesOfHex(u[..8]);
    DashJoin(a, u[8..12]);
    DashJoin(a + "-" + b, u[12..16]);
    DashJoin(a + "-" + b + "-" + c, u[16..20]);
    DashJoin(a + "-" + b + "-" + c + "-" + d, u[20..]);
    HexOfGroups(u);
  }

  /** `generateRandomString(length)`: the first `length` characters of the dash-free UUID text, that is,
      the first `length` hex digits of the UUID. `substring` demands `length` be at most 32. */
  function RandomString(u: Uuid, length: nat): (r: string)
    requires length <= 32
    ensures r == Hex(u[..length])
  {
    UuidTextWithoutDashes(u);
    RemoveDashes(UuidText(u))[..length]
  }

  /** `generateUserId`. */
  function UserId(u: Uuid): string {
    UserIdPrefix + RandomString(u, 12)
  }

  /** `generateTransactionId`. */
  function TransactionId(u: Uuid): string {
    TransactionIdPrefix + RandomString(u, 12)
  }

  /** `generateAccountNumber`: "01" followed by the decimal text of 100000 + draw. */
  function AccountNumber(d: AccountDraw): string {
    AccountNumberPrefix + NatToDecimal(100000 + d)
  }

  /** The shape of a generated user or transaction id: a four-character prefix and 12 lower-case hex digits. */
  predicate IsPrefixedHexId(id: string, prefix: string) {
    && |id| == 16
    && id[..4] == prefix
    && forall i :: 4 <= i < 16 ==> IsLowerHex(id[i])
  }

  /** The shape of an account number: `01\d{6}`. */
  predicate IsAccountNumberText(n: string) {
    |n| == 8 && n[..2] == AccountNumberPrefix && AllDigits(n)
  }

  lemma HexIsLowerHex(s: seq<Nibble>)
    ensures forall i :: 0 <= i < |s| ==> IsLowerHex(Hex(s)[i])
  {
  }

  /** Every user id is "usr-" followed by 12 lower-case hex digits, the first 12 digits of the UUID. */
  lemma UserIdFormat(u: Uuid)
    ensures IsPrefixedHexId(UserId(u), "usr-")
    ensures UserId(u)[4..] == Hex(u[..12])
  {
    HexIsLowerHex(u[..12]);
  }

  /** Every transaction id is "tan-" followed by 12 lower-case hex digits, the first 12 digits of the UUID. */
  lemma TransactionIdFormat(u: Uuid)
    ensures IsPrefixedHexId(TransactionId(u), "tan-")
    ensures TransactionId(u)[4..] == Hex(u[..12])
  {
    HexIsLowerHex(u[..12]);
  }

  lemma HexInjective(a: seq<Nibble>, b: seq<Nibble>)
    requires Hex(a) == Hex(b)
    ensures a == b
  {
    assert |a| == |b|;
    forall i | 0 <= i < |a| ensures a[i] == b[i] {
      assert HexChar(a[i]) == Hex(a)[i] == Hex(b)[i] == HexChar(b[i]);
    }
  }

  /** Two draws give the same user id exactly when their first 48 bits agree. */
  lemma UserIdCollision(u: Uuid, v: Uuid)
    ensures UserId(u) == UserId(v) <==> u[..12] == v[..12]
  {
    if UserId(u) == UserId(v) {
      assert UserId(u)[4..] == UserId(v)[4..];
      HexInjective(u[..12], v[..12]);
    }
  }

  /** Every account number is "01" followed by six decimal digits whose value is 100000 + draw. */
  lemma {:induction false} AccountNumberFormat(d: AccountDraw)
    ensures IsAccountNumberText(AccountNumber(d))
    ensures DecimalValue(AccountNumber(d)[2..]) == 100000 + d
  {
    var n := AccountNumber(d);
    assert Pow10(5) == 100000 && Pow10(6) == 1000000;
    NatToDecimalLength(100000 + d, 6);
    NatToDecimalRoundTrip(100000 + d);
    assert n[2..] == NatToDecimal(100000 + d);
    assert forall i :: 2 <= i < 8 ==> n[i] == n[2..][i - 2];
  }

  /** Different draws give different account numbers. */
  lemma AccountNumberInjective(d: AccountDraw, e: AccountDraw)
    requires AccountNumber(d) == AccountNumber(e)
    ensures d == e
  {
    AccountNumberFormat(d);
    AccountNumberFormat(e);
  }
}
