/** Longest-prefix match over an IPv4 route table. */
module Routing {
  import opened Text

  type IP = seq<bv8>

  datatype Entry = Entry(dest: bv32, mask: bv32, gateway: IP, iface: IP, metric: int)

  // ---------------------------------------------------------------- addresses

  const MAPPED_PREFIX: IP := [0, 0, 0, 0, 0, 0, 0, 0, 0, 0, 0xFF, 0xFF]

  /** net.IP.To4: four bytes as they are, a v4-mapped address without its prefix, nothing else. */
  function To4(ip: IP): Option<IP> {
    if |ip| == 4 then Some(ip) else if |ip| == 16 && ip[..12] == MAPPED_PREFIX then Some(ip[12..]) else None
  }

  /** ipToUint32, big-endian; 0 for what is not an IPv4 address. */
  function ToUint32(ip: IP): bv32 {
    var v := To4(ip);
    if v.None? then 0
    else FromOctets(Wide(v.value[0]), Wide(v.value[1]), Wide(v.value[2]), Wide(v.value[3]))
  }

  function Wide(b: bv8): (w: bv32)
    ensures w < 256
  {
    b as bv32
  }

  function FromOctets(a: bv32, b: bv32, c: bv32, d: bv32): bv32 { (a << 24) | (b << 16) | (c << 8) | d }

  // ---------------------------------------------------------------- words

  /** The word operators, as functions that a proof can hide. */
  function And(x: bv32, y: bv32): bv32 { x & y }
  function Or(x: bv32, y: bv32): bv32 { x | y }
  function Twice(x: bv32): bv32 { x << 1 }

  /** 1 << i. */
  function Bit(i: nat): bv32 { if i == 0 then 1 else Twice(Bit(i - 1)) }

  lemma AndCommutes(x: bv32, y: bv32)
    ensures And(x, y) == And(y, x)
  {
  }

  lemma AndAssociates(x: bv32, a: bv32, b: bv32)
    ensures And(And(x, a), b) == And(x, And(a, b))
  {
  }

  lemma AndSelf(x: bv32)
    ensures And(x, x) == x && And(0, x) == 0 && Or(0, x) == x && Or(x, 0) == x
  {
  }

  lemma AndOverOr(t: bv32, x: bv32, y: bv32)
    ensures And(Or(t, x), y) == Or(And(t, y), And(x, y))
  {
  }

  lemma AbsorbOr(t: bv32, u: bv32, x: bv32)
    requires And(t, u) == t
    ensures And(t, Or(u, x)) == t
  {
  }

  lemma OneIsApart(x: bv32)
    ensures And(1, Twice(x)) == 0
  {
  }

  lemma TwiceIsApart(x: bv32, y: bv32)
    requires And(x, y) == 0
    ensures And(Twice(x), Twice(y)) == 0
  {
  }

  lemma BitStep(i: nat)
    requires i > 0
    ensures Bit(i) == Twice(Bit(i - 1))
  {
    hide Twice;
  }

  lemma Double(i: nat, x: bv32, y: bv32)
    requires Bit(i) == x && y == Twice(x)
    ensures Bit(i + 1) == y
  {
    hide Twice;
  }

  lemma LastBit()
    ensures Bit(29) == 0x2000_0000 && Bit(30) == 0x4000_0000 && Bit(31) == 0x8000_0000
  {
    Double(0, 0x1, 0x2); Double(1, 0x2, 0x4); Double(2, 0x4, 0x8);
    Double(3, 0x8, 0x10); Double(4, 0x10, 0x20); Double(5, 0x20, 0x40);
    Double(6, 0x40, 0x80); Double(7, 0x80, 0x100); Double(8, 0x100, 0x200);
    Double(9, 0x200, 0x400); Double(10, 0x400, 0x800); Double(11, 0x800, 0x1000);
    Double(12, 0x1000, 0x2000); Double(13, 0x2000, 0x4000); Double(14, 0x4000, 0x8000);
    Double(15, 0x8000, 0x10000); Double(16, 0x10000, 0x20000); Double(17, 0x20000, 0x40000);
    Double(18, 0x40000, 0x80000); Double(19, 0x80000, 0x100000); Double(20, 0x100000, 0x200000);
    Double(21, 0x200000, 0x400000); Double(22, 0x400000, 0x800000); Double(23, 0x800000, 0x1000000);
    Double(24, 0x1000000, 0x2000000); Double(25, 0x2000000, 0x4000000); Double(26, 0x4000000, 0x8000000);
    Double(27, 0x8000000, 0x10000000); Double(28, 0x10000000, 0x20000000); Double(29, 0x20000000, 0x40000000);
    Double(30, 0x40000000, 0x80000000);
  }

  lemma {:induction false} ZeroStays(i: nat, j: nat)
    requires i <= j && Bit(i) == 0
    ensures Bit(j) == 0
    decreases j
  {
    if i < j {
      ZeroStays(i, j - 1);
      Double(j - 1, 0, 0);
    }
  }

  /** No shift below 32 loses the bit. */
  lemma BitIsSomething(i: nat)
    requires i < 32
    ensures Bit(i) != 0
  {
    LastBit();
    hide Bit;
    if Bit(i) == 0 {
      ZeroStays(i, 31);
    }
  }

  lemma {:induction false} BitsAreApart(i: nat, j: nat)
    requires i < j < 32
    ensures And(Bit(i), Bit(j)) == 0
  {
    BitStep(j);
    if i == 0 {
      OneIsApart(Bit(j - 1));
      assert Bit(0) == 1;
    } else {
      BitStep(i);
      hide *;
      BitsAreApart(i - 1, j - 1);
      TwiceIsApart(Bit(i - 1), Bit(j - 1));
    }
  }

  // ---------------------------------------------------------------- masks

  /** The mask of the `n` leading bits. */
  function Top(n: nat): bv32
    requires n <= 32
  {
    if n == 0 then 0 else Or(Top(n - 1), Bit(32 - n))
  }

  /** The leading ones of `m`, `n` of them already seen. */
  function OnesFrom(m: bv32, n: nat): (r: nat)
    requires n <= 32
    ensures n <= r <= 32
    decreases 32 - n
  {
    if n == 32 || And(m, Bit(31 - n)) == 0 then n else OnesFrom(m, n + 1)
  }

  function LeadingOnes(m: bv32): nat { OnesFrom(m, 0) }

  /** maskBits as its loop. */
  method MaskBits(m: bv32) returns (n: nat)
    ensures n == LeadingOnes(m)
  {
    hide Bit, And;
    n := 0;
    for i := 32 downto 0
      invariant n == 32 - i
      invariant OnesFrom(m, n) == LeadingOnes(m)
    {
      if And(m, Bit(i)) == 0 {
        break;
      }
      n := n + 1;
    }
  }

  ghost predicate IsContiguous(m: bv32) { exists n :: 0 <= n <= 32 && m == Top(n) }

  lemma TopStep(n: nat)
    requires 0 < n <= 32
    ensures Top(n) == Or(Top(n - 1), Bit(32 - n))
  {
    hide Bit, Or;
  }

  /** Shorter masks are submasks of longer ones. */
  lemma {:induction false} ShorterIsSubmask(a: nat, b: nat)
    requires a <= b <= 32
    ensures And(Top(a), Top(b)) == Top(a)
    decreases b
  {
    hide *;
    if a < b {
      ShorterIsSubmask(a, b - 1);
      TopStep(b);
      AbsorbOr(Top(a), Top(b - 1), Bit(32 - b));
    } else {
      AndSelf(Top(a));
    }
  }

  lemma TopOfNothing()
    ensures Top(0) == 0
  {
  }

  /** A bit belongs to the leading mask exactly when it is among the leading ones. */
  lemma {:induction false} TopBit(n: nat, i: nat)
    requires n <= 32 && i < 32
    ensures And(Top(n), Bit(31 - i)) == if i < n then Bit(31 - i) else 0
  {
    hide *;
    var y := Bit(31 - i);
    AndSelf(y);
    if n == 0 {
      TopOfNothing();
    } else {
      TopBit(n - 1, i);
      TopStep(n);
      AndOverOr(Top(n - 1), Bit(32 - n), y);
      AndSelf(0);
      if i > n - 1 {
        BitsAreApart(31 - i, 32 - n);
        AndCommutes(y, Bit(32 - n));
      } else if i < n - 1 {
        BitsAreApart(32 - n, 31 - i);
      }
    }
  }

  /** A contiguous mask of `n` bits has `n` leading ones. */
  lemma {:induction false} OnesOfTop(n: nat, from: nat)
    requires from <= n <= 32
    ensures OnesFrom(Top(n), from) == n
    decreases n - from
  {
    hide Bit, Top, And;
    if from < 32 {
      TopBit(n, from);
      BitIsSomething(31 - from);
    }
    if from < n {
      OnesOfTop(n, from + 1);
    }
  }

  // ---------------------------------------------------------------- the match

  predicate Covers(e: Entry, d: bv32) { And(d, e.mask) == e.dest }

  /** The stack's preference: more leading ones, then the lower metric, then the earlier entry. */
  predicate IsBetter(entries: seq<Entry>, k: int, j: int)
    requires 0 <= k < |entries| && 0 <= j < |entries|
  {
    var a, b := LeadingOnes(entries[k].mask), LeadingOnes(entries[j].mask);
    a > b || (a == b && (entries[k].metric < entries[j].metric || (entries[k].metric == entries[j].metric && k <= j)))
  }

  ghost predicate IsBest(entries: seq<Entry>, d: bv32, k: int) {
    && 0 <= k < |entries| && Covers(entries[k], d)
    && forall j :: 0 <= j < |entries| && Covers(entries[j], d) ==> IsBetter(entries, k, j)
  }

  /** longestMatch: the best covering entry, and none exactly when nothing covers. */
  method LongestMatch(entries: seq<Entry>, dst: IP) returns (found: Option<Entry>)
    ensures To4(dst).None? ==> found == None
    ensures To4(dst).Some? ==>
              (found == None <==> forall j :: 0 <= j < |entries| ==> !Covers(entries[j], ToUint32(dst)))
    ensures found.Some? ==> exists k: int :: IsBest(entries, ToUint32(dst), k) && found.value == entries[k]
  {
    hide LeadingOnes, ToUint32, To4, And;
    var d := ToUint32(dst);
    if To4(dst).None? {
      return None;
    }
    var best: int, bestBits: int, bestMetric: int := -1, -1, 0;
    for i := 0 to |entries|
      invariant -1 <= best < i
      invariant best == -1 ==> bestBits == -1 && forall j :: 0 <= j < i ==> !Covers(entries[j], d)
      invariant best >= 0 ==>
                  && Covers(entries[best], d)
                  && bestBits == LeadingOnes(entries[best].mask) && bestMetric == entries[best].metric
                  && forall j :: 0 <= j < i && Covers(entries[j], d) ==> IsBetter(entries, best, j)
    {
      var e := entries[i];
      if And(d, e.mask) != e.dest {
        continue;
      }
      var bits := MaskBits(e.mask);
      if bits > bestBits || (bits == bestBits && e.metric < bestMetric) {
        best, bestBits, bestMetric := i, bits, e.metric;
      }
    }
    if best < 0 {
      return None;
    }
    assert IsBest(entries, d, best);
    return Some(entries[best]);
  }

  /** There is one best entry. */
  lemma BestIsUnique(entries: seq<Entry>, d: bv32, k: int, j: int)
    requires IsBest(entries, d, k) && IsBest(entries, d, j)
    ensures k == j
  {
    assert IsBetter(entries, k, j) && IsBetter(entries, j, k);
  }

  // ---------------------------------------------------------------- address blocks

  /** Of two masks that cover one address, the longer one's block lies inside the other's. */
  lemma BlocksNest(x: bv32, d: bv32, short: bv32, long: bv32)
    requires And(short, long) == short && And(x, long) == And(d, long)
    ensures And(x, short) == And(d, short)
  {
    hide *;
    AndCommutes(short, long);
    AndAssociates(x, long, short);
    AndAssociates(d, long, short);
  }

  /**
   * With contiguous masks the winner's block is inside every other covering block, so the match is
   * the most specific route (section 5.1 of RFC 4632).
   */
  lemma WinnerIsMostSpecific(entries: seq<Entry>, d: bv32, k: int, j: int, x: bv32)
    requires IsBest(entries, d, k) && 0 <= j < |entries| && Covers(entries[j], d)
    requires IsContiguous(entries[k].mask) && IsContiguous(entries[j].mask)
    requires Covers(entries[k], x)
    ensures Covers(entries[j], x)
  {
    var long, short := entries[k].mask, entries[j].mask;
    hide Top, Bit, OnesFrom, And, IsBetter;
    var p :| 0 <= p <= 32 && long == Top(p);
    var q :| 0 <= q <= 32 && short == Top(q);
    OnesOfTop(p, 0);
    OnesOfTop(q, 0);
    assert IsBetter(entries, k, j);
    ShorterIsSubmask(q, p);
    BlocksNest(x, d, short, long);
  }

  /** An address that agrees with `d` on the bits of `long` and differs from it on all others. */
  function Opposite(d: bv32, long: bv32): bv32 { (d & long) | (!d & !long) }

  lemma OppositeTells(d: bv32, short: bv32, long: bv32)
    ensures And(Opposite(d, long), long) == And(d, long)
    ensures And(Opposite(d, long), short) == And(d, short) ==> And(short, long) == short
  {
  }

  /**
   * The exact condition: of two entries that cover an address, one's block lies inside the other's
   * if and only if the other's mask is a submask of its own.
   */
  lemma NestsExactly(winner: Entry, other: Entry, d: bv32)
    requires Covers(winner, d) && Covers(other, d)
    ensures (forall x :: Covers(winner, x) ==> Covers(other, x)) <==> And(other.mask, winner.mask) == other.mask
  {
    var long, short := winner.mask, other.mask;
    OppositeTells(d, short, long);
    hide And, Opposite;
    if And(short, long) == short {
      forall x | Covers(winner, x) ensures Covers(other, x) {
        BlocksNest(x, d, short, long);
      }
    } else {
      assert Covers(winner, Opposite(d, long)) && !Covers(other, Opposite(d, long));
    }
  }

  /** Without that, it need not be: a mask with a hole wins on its leading ones alone. */
  lemma HolesBreakNesting()
    ensures exists entries: seq<Entry>, d: bv32, k: int, j: int, x: bv32 ::
              && IsBest(entries, d, k) && 0 <= j < |entries| && Covers(entries[j], d)
              && Covers(entries[k], x) && !Covers(entries[j], x)
  {
    var wide := Entry(0x8000_0000, 0xC000_0000, [], [], 1);
    var holed := Entry(0x0000_0001, 0x4000_0001, [], [], 1);
    var entries := [wide, holed];
    var d: bv32, x: bv32 := 0x8000_0001, 0x8000_0002;
    TwoOnes();
    assert Covers(wide, d) && Covers(holed, d) && Covers(wide, x) && !Covers(holed, x);
    hide LeadingOnes, Covers;
    assert entries[0] == wide && entries[1] == holed;
    assert IsBest(entries, d, 0);
    assert IsBest(entries, d, 0) && 0 <= 1 < |entries| && Covers(entries[1], d)
           && Covers(entries[0], x) && !Covers(entries[1], x);
  }

  lemma TwoOnes()
    ensures LeadingOnes(0xC000_0000) == 2 && LeadingOnes(0x4000_0001) == 0
  {
    LastBit();
    hide Bit;
    assert OnesFrom(0xC000_0000, 2) == 2;
    assert OnesFrom(0xC000_0000, 1) == 2;
  }

  // ---------------------------------------------------------------- addresses as words

  /** The octets of a word, from the highest byte down. */
  function Octets(x: bv32): (bv32, bv32, bv32, bv32) { ((x >> 24) & 0xFF, (x >> 16) & 0xFF, (x >> 8) & 0xFF, x & 0xFF) }

  lemma WordOctets(a: bv32, b: bv32, c: bv32, d: bv32)
    requires a < 256 && b < 256 && c < 256 && d < 256
    ensures Octets(FromOctets(a, b, c, d)) == (a, b, c, d)
  {
  }

  /** The word of an IPv4 address holds its octets in order. */
  lemma OctetsOf(ip: IP)
    requires |ip| == 4
    ensures Octets(ToUint32(ip)) == (Wide(ip[0]), Wide(ip[1]), Wide(ip[2]), Wide(ip[3]))
  {
    hide Octets, FromOctets, Wide;
    WordOctets(Wide(ip[0]), Wide(ip[1]), Wide(ip[2]), Wide(ip[3]));
  }

  /** An address mapped into IPv6 is the same word, and any other IPv6 address none. */
  lemma MappedIsTheSame(ip: IP)
    requires |ip| == 4
    ensures ToUint32([0, 0, 0, 0, 0, 0, 0, 0, 0, 0, 0xFF, 0xFF] + ip) == ToUint32(ip)
  {
    hide ToUint32;
    var mapped := [0, 0, 0, 0, 0, 0, 0, 0, 0, 0, 0xFF, 0xFF] + ip;
    assert mapped[..12] == MAPPED_PREFIX && mapped[12..] == ip;
    SameFour(mapped, ip);
  }

  lemma SameFour(a: IP, b: IP)
    requires To4(a) == To4(b)
    ensures ToUint32(a) == ToUint32(b)
  {
    hide To4, FromOctets, Wide;
  }

  lemma HighOctet(x: bv32, net: bv32)
    requires net < 256
    ensures And(x, 0xFF00_0000) == FromOctets(net, 0, 0, 0) <==> Octets(x).0 == net
  {
  }

  lemma SameOctet(a: bv8, b: bv8)
    ensures Wide(a) == Wide(b) <==> a == b
  {
  }

  /** So a block of length 8 covers exactly the addresses with its first octet. */
  lemma SlashEightExactly(ip: IP, net: bv8, e: Entry)
    requires |ip| == 4 && e.mask == 0xFF00_0000 && e.dest == ToUint32([net, 0, 0, 0])
    ensures Covers(e, ToUint32(ip)) <==> ip[0] == net
  {
    SlashEightWord(net);
    hide ToUint32, Octets, And, Wide, FromOctets;
    OctetsOf(ip);
    HighOctet(ToUint32(ip), Wide(net));
    SameOctet(ip[0], net);
  }

  lemma SlashEightWord(net: bv8)
    ensures ToUint32([net, 0, 0, 0]) == FromOctets(Wide(net), 0, 0, 0)
  {
    assert Wide(0) == 0;
    hide FromOctets, Wide;
  }
}
