/** The question parser of the name forwarder: ci/probe_box/dns.py, `question`. The wire form is
    the one of sections 3.1, 4.1.1 and 4.1.2 of RFC 1035. */
module DnsQuestion {
  import opened Wrappers
  import Text

  datatype DnsError = Shape | Name | NotAscii | Type

  // ----- The wire form

  /** One to 63 bytes, all ASCII. */
  ghost predicate ValidLabel(piece: seq<byte>) {
    1 <= |piece| <= 63 && forall b :: b in piece ==> b < 128
  }

  ghost predicate ValidLabels(labels: seq<seq<byte>>) {
    forall l :: l in labels ==> ValidLabel(l)
  }

  /** Length-prefixed labels and a zero byte. */
  function EncodeName(labels: seq<seq<byte>>): (r: seq<byte>)
    requires forall l :: l in labels ==> |l| < 256
    ensures r != []
  {
    if labels == [] then [0]
    else [|labels[0]| as byte] + labels[0] + EncodeName(labels[1..])
  }

  /** One question and no other records, after the four bytes of identifier and flags. */
  const COUNTS: seq<byte> := [0, 1, 0, 0, 0, 0, 0, 0]

  const TYPE_A: byte := 1
  const TYPE_AAAA: byte := 28

  ghost predicate Encodes(packet: seq<byte>, head: seq<byte>, labels: seq<seq<byte>>, qtype: byte) {
    && |head| == 4 && ValidLabels(labels) && qtype in {TYPE_A, TYPE_AAAA}
    && packet == head + COUNTS + EncodeName(labels) + [0, qtype, 0, 1]
  }

  // ----- The name a question asks for

  function Lower(b: byte): char {
    if 65 <= b <= 90 then (b as int + 32) as char else b as int as char
  }

  /** `label.decode('ascii').lower()`. */
  function LowerLabel(piece: seq<byte>): (s: string)
    ensures |s| == |piece|
  {
    seq(|piece|, i requires 0 <= i < |piece| => Lower(piece[i]))
  }

  function LowerLabels(labels: seq<seq<byte>>): (r: seq<string>)
    ensures |r| == |labels|
  {
    seq(|labels|, i requires 0 <= i < |labels| => LowerLabel(labels[i]))
  }

  function Dotted(labels: seq<seq<byte>>): string {
    Text.Join(LowerLabels(labels), ".")
  }

  // ----- The parser

  predicate IsAscii(s: seq<byte>) {
    forall b :: b in s ==> b < 128
  }

  predicate ShapeOk(packet: seq<byte>) {
    |packet| >= 17 && packet[4..12] == COUNTS
  }

  predicate TypeOk(packet: seq<byte>, at: nat) {
    && |packet| == at + 5
    && packet[at + 3..] == [0, 1]
    && packet[at + 1..at + 3] in {[0, TYPE_A], [0, TYPE_AAAA]}
  }

  /** The labels in front of the first zero length byte, and how many bytes they take. */
  function ParseName(s: seq<byte>): (r: Result<(seq<seq<byte>>, nat), DnsError>)
    requires s != []
    ensures r.Ok? ==> r.value.1 < |s|
  {
    var n := s[0] as int;
    if n == 0 then Ok(([], 0))
    else if n > 63 || n + 1 >= |s| then Err(Name)
    else if !IsAscii(s[1..n + 1]) then Err(NotAscii)
    else
      match ParseName(s[n + 1..])
      case Err(e) => Err(e)
      case Ok((labels, used)) => Ok(([s[1..n + 1]] + labels, n + 1 + used))
  }

  function Parse(packet: seq<byte>): Result<string, DnsError> {
    if !ShapeOk(packet) then Err(Shape)
    else
      match ParseName(packet[12..])
      case Err(e) => Err(e)
      case Ok((labels, used)) => if TypeOk(packet, 12 + used) then Ok(Dotted(labels)) else Err(Type)
  }

  /** What the parser still owes after the labels read so far, which took `used` bytes. */
  function Resume(labels: seq<seq<byte>>, used: nat, r: Result<(seq<seq<byte>>, nat), DnsError>)
    : Result<(seq<seq<byte>>, nat), DnsError>
  {
    match r
    case Err(e) => Err(e)
    case Ok((rest, more)) => Ok((labels + rest, used + more))
  }

  lemma ResumeStart(r: Result<(seq<seq<byte>>, nat), DnsError>)
    ensures Resume([], 0, r) == r
  {
    if r.Ok? { assert [] + r.value.0 == r.value.0; }
  }

  lemma ResumeStep(packet: seq<byte>, at: nat, labels: seq<seq<byte>>, used: nat)
    requires at < |packet| && 0 < packet[at] <= 63 && at + packet[at] as nat + 1 < |packet|
    requires IsAscii(packet[at + 1..at + packet[at] as nat + 1])
    ensures var n := packet[at] as nat;
      Resume(labels, used, ParseName(packet[at..]))
      == Resume(labels + [packet[at + 1..at + n + 1]], used + n + 1, ParseName(packet[at + n + 1..]))
  {
    var n := packet[at] as nat;
    var piece := packet[at + 1..at + n + 1];
    assert packet[at..][1..n + 1] == piece && packet[at..][n + 1..] == packet[at + n + 1..];
    match ParseName(packet[at + n + 1..])
    case Err(e) =>
    case Ok((rest, more)) => assert (labels + [piece]) + rest == labels + ([piece] + rest);
  }

  lemma ShapeParts(packet: seq<byte>)
    requires |packet| >= 17
    ensures packet[4..12] == COUNTS <==> packet[4..6] == [0, 1] && packet[6..12] == [0, 0, 0, 0, 0, 0]
  {
    assert packet[4..12] == packet[4..6] + packet[6..12];
    assert packet[4..6] == packet[4..12][..2] && packet[6..12] == packet[4..12][2..];
  }

  /** Where the parser stops with an answer of its own. */
  lemma NameStops(packet: seq<byte>, at: nat)
    requires at < |packet|
    ensures var n := packet[at] as nat; var r := ParseName(packet[at..]);
      && (n == 0 ==> r == Ok(([], 0)))
      && (n > 63 || (n > 0 && at + n + 1 >= |packet|) ==> r == Err(Name))
      && (0 < n <= 63 && at + n + 1 < |packet| && !IsAscii(packet[at + 1..at + n + 1]) ==> r == Err(NotAscii))
  {
    var n, s := packet[at] as nat, packet[at..];
    assert s[0] == packet[at] && (at + n + 1 < |packet| ==> s[1..n + 1] == packet[at + 1..at + n + 1]);
  }

  method Question(packet: seq<byte>) returns (r: Result<string, DnsError>)
    ensures r == Parse(packet)
  {
    hide ParseName, TypeOk, IsAscii;
    if |packet| < 17 { return Err(Shape); }
    ShapeParts(packet);
    if packet[4..6] != [0, 1] || packet[6..12] != [0, 0, 0, 0, 0, 0] { return Err(Shape); }
    var at, labels, names := 12, [], [];
    ResumeStart(ParseName(packet[12..]));
    while packet[at] != 0
      invariant 12 <= at < |packet|
      invariant names == LowerLabels(labels)
      invariant ParseName(packet[12..]) == Resume(labels, at - 12, ParseName(packet[at..]))
      decreases |packet| - at
    {
      var n := packet[at] as int;
      NameStops(packet, at);
      if n > 63 || at + n + 1 >= |packet| { return Err(Name); }
      var piece := packet[at + 1..at + n + 1];
      if !IsAscii(piece) { return Err(NotAscii); }
      ResumeStep(packet, at, labels, at - 12);
      names := names + [LowerLabel(piece)];
      labels := labels + [piece];
      at := at + n + 1;
    }
    NameStops(packet, at);
    assert labels + [] == labels;
    if !TypeOk(packet, at) { return Err(Type); }
    return Ok(Text.Join(names, "."));
  }

  // ----- The accepted language

  lemma TakeApart(s: seq<byte>, n: nat, k: nat)
    requires s != [] && n + 1 + k <= |s|
    ensures s[..n + 1 + k] == [s[0]] + s[1..n + 1] + s[n + 1..][..k]
  {}

  lemma {:induction false} ParseSound(s: seq<byte>)
    requires s != [] && ParseName(s).Ok?
    ensures var (labels, used) := ParseName(s).value;
      ValidLabels(labels) && used + 1 == |EncodeName(labels)| && EncodeName(labels) == s[..used + 1]
  {
    var n := s[0] as int;
    if n > 0 {
      ParseSound(s[n + 1..]);
      var (rest, more) := ParseName(s[n + 1..]).value;
      var (labels, used) := ParseName(s).value;
      assert labels[0] == s[1..n + 1] && labels[1..] == rest;
      TakeApart(s, n, more + 1);
    }
  }

  lemma PutTogether(x: byte, piece: seq<byte>, tail: seq<byte>)
    ensures var s := [x] + piece + tail; s[0] == x && s[1..|piece| + 1] == piece && s[|piece| + 1..] == tail
  {}

  lemma Associate(x: byte, piece: seq<byte>, name: seq<byte>, rest: seq<byte>)
    ensures [x] + piece + name + rest == [x] + piece + (name + rest)
  {}

  lemma {:induction false} ParseComplete(labels: seq<seq<byte>>, rest: seq<byte>)
    requires ValidLabels(labels)
    ensures ParseName(EncodeName(labels) + rest) == Ok((labels, |EncodeName(labels)| - 1))
  {
    var s := EncodeName(labels) + rest;
    if labels != [] {
      var piece, tail := labels[0], EncodeName(labels[1..]) + rest;
      ParseComplete(labels[1..], rest);
      assert ValidLabel(piece);
      Associate(|piece| as byte, piece, EncodeName(labels[1..]), rest);
      PutTogether(|piece| as byte, piece, tail);
      assert s[0] as int == |piece| && IsAscii(piece);
      assert labels == [piece] + labels[1..];
    }
  }

  lemma TailTyped(front: seq<byte>, name: seq<byte>, qtype: byte)
    requires |front| == 12 && name != [] && qtype in {TYPE_A, TYPE_AAAA}
    ensures TypeOk(front + name + [0, qtype, 0, 1], 11 + |name|)
  {
    var tail: seq<byte> := [0, qtype, 0, 1];
    var packet := front + name + tail;
    var end := 12 + |name|;
    assert packet[end..] == tail;
    assert packet[end..end + 2] == packet[end..][..2] == [0, qtype];
    assert packet[end + 2..] == packet[end..][2..] == [0, 1];
  }

  /** Encoding a question and parsing it gives the dotted, lower-cased name back. */
  lemma RoundTrip(packet: seq<byte>, head: seq<byte>, labels: seq<seq<byte>>, qtype: byte)
    requires Encodes(packet, head, labels, qtype)
    ensures Parse(packet) == Ok(Dotted(labels))
  {
    hide ParseName, EncodeName, TypeOk, IsAscii, Dotted;
    var front, name, tail := head + COUNTS, EncodeName(labels), [0, qtype, 0, 1];
    assert packet == front + name + tail;
    assert ShapeOk(packet) by { assert packet[4..12] == front[4..] == COUNTS; }
    assert packet[12..] == name + tail;
    ParseComplete(labels, tail);
    TailTyped(front, name, qtype);
  }

  lemma FourParts(packet: seq<byte>, at: nat)
    requires 12 <= at && |packet| == at + 5
    ensures packet
      == packet[..4] + packet[4..12] + packet[12..][..at - 11] + (packet[at + 1..at + 3] + packet[at + 3..])
  {}

  lemma AcceptedEncodes(packet: seq<byte>) returns (head: seq<byte>, labels: seq<seq<byte>>, qtype: byte)
    requires Parse(packet).Ok?
    ensures Encodes(packet, head, labels, qtype)
  {
    hide ParseName, EncodeName, ValidLabels, IsAscii;
    ParseSound(packet[12..]);
    labels := ParseName(packet[12..]).value.0;
    var at := 12 + ParseName(packet[12..]).value.1;
    head, qtype := packet[..4], packet[at + 2];
    assert packet[at + 1..at + 3][1] == qtype;
    FourParts(packet, at);
  }

  /** A packet is accepted exactly when it is one question for the A or AAAA address, class IN, of
      labels of 1 to 63 ASCII bytes, and nothing else. */
  lemma AcceptedLanguage(packet: seq<byte>)
    ensures Parse(packet).Ok? <==> exists head, labels, qtype :: Encodes(packet, head, labels, qtype)
  {
    if Parse(packet).Ok? {
      var head, labels, qtype := AcceptedEncodes(packet);
    }
    if exists head, labels, qtype :: Encodes(packet, head, labels, qtype) {
      var head, labels, qtype :| Encodes(packet, head, labels, qtype);
      RoundTrip(packet, head, labels, qtype);
    }
  }

  /** A packet is the encoding of at most one question. */
  lemma Unambiguous(packet: seq<byte>, head: seq<byte>, labels: seq<seq<byte>>, qtype: byte,
                    head': seq<byte>, labels': seq<seq<byte>>, qtype': byte)
    requires Encodes(packet, head, labels, qtype) && Encodes(packet, head', labels', qtype')
    ensures (head, labels, qtype) == (head', labels', qtype')
  {
    hide ParseName, EncodeName;
    assert head == packet[..4] == head';
    assert packet[12..] == EncodeName(labels) + [0, qtype, 0, 1];
    assert packet[12..] == EncodeName(labels') + [0, qtype', 0, 1];
    ParseComplete(labels, [0, qtype, 0, 1]);
    ParseComplete(labels', [0, qtype', 0, 1]);
    assert packet[|packet| - 3] == qtype && packet[|packet| - 3] == qtype';
  }

  // ----- Lower case

  predicate IsUpper(c: char) {
    'A' <= c <= 'Z'
  }

  /** The character of an ASCII byte. */
  function CharOf(b: byte): char {
    b as int as char
  }

  /** The bytes are of one character, or of the capital and the small form of one letter. */
  ghost predicate SameLetter(a: byte, b: byte) {
    a == b || (IsUpper(CharOf(a)) && b as int == a as int + 32) || (IsUpper(CharOf(b)) && a as int == b as int + 32)
  }

  ghost predicate SameUpToCase(a: seq<byte>, b: seq<byte>) {
    |a| == |b| && forall i :: 0 <= i < |a| ==> SameLetter(a[i], b[i])
  }

  /** Lower-casing leaves no capital, changes nothing but capitals, and loses nothing but case. */
  lemma LowerCases(a: seq<byte>, b: seq<byte>)
    requires ValidLabel(a) && ValidLabel(b)
    ensures forall c :: c in LowerLabel(a) ==> !IsUpper(c)
    ensures forall i :: 0 <= i < |a| && !IsUpper(CharOf(a[i])) ==> LowerLabel(a)[i] == CharOf(a[i])
    ensures LowerLabel(a) == LowerLabel(b) <==> SameUpToCase(a, b)
  {
    if SameUpToCase(a, b) {
      assert LowerLabel(a) == LowerLabel(b);
    } else if |a| == |b| {
      var i :| 0 <= i < |a| && !SameLetter(a[i], b[i]);
      assert LowerLabel(a)[i] != LowerLabel(b)[i];
    }
  }

  ghost predicate SameLabelsUpToCase(a: seq<seq<byte>>, b: seq<seq<byte>>) {
    |a| == |b| && forall i :: 0 <= i < |a| ==> SameUpToCase(a[i], b[i])
  }

  lemma LowerLabelsSame(a: seq<seq<byte>>, b: seq<seq<byte>>)
    requires ValidLabels(a) && ValidLabels(b)
    ensures LowerLabels(a) == LowerLabels(b) <==> SameLabelsUpToCase(a, b)
  {
    hide LowerLabel, SameUpToCase;
    if |a| == |b| {
      forall i | 0 <= i < |a| ensures LowerLabels(a)[i] == LowerLabels(b)[i] <==> SameUpToCase(a[i], b[i]) {
        LowerCases(a[i], b[i]);
      }
    }
  }

  // ----- What the dotted name tells

  const DOT: byte := 46

  ghost predicate DotFree(labels: seq<seq<byte>>) {
    ValidLabels(labels) && forall l :: l in labels ==> DOT !in l
  }

  lemma LowerDot(piece: seq<byte>)
    requires ValidLabel(piece) && DOT !in piece
    ensures '.' !in LowerLabel(piece) && LowerLabel(piece) != []
  {}

  /** Without a dot inside a label, the name determines the labels up to case. */
  lemma SameNameSameLabels(a: seq<seq<byte>>, b: seq<seq<byte>>)
    requires DotFree(a) && DotFree(b)
    ensures Dotted(a) == Dotted(b) <==> SameLabelsUpToCase(a, b)
  {
    LowerLabelsSame(a, b);
    if Dotted(a) == Dotted(b) {
      DottedSplits(a);
      DottedSplits(b);
    }
  }

  lemma DotKept(piece: seq<byte>)
    requires ValidLabel(piece)
    ensures '.' in LowerLabel(piece) <==> DOT in piece
  {
    if DOT in piece {
      var i :| 0 <= i < |piece| && piece[i] == DOT;
      assert LowerLabel(piece)[i] == '.';
    } else {
      LowerDot(piece);
    }
  }

  /** A name without dots inside its labels is read from its own labels, up to case, exactly when none
      of the labels read holds a dot. */
  lemma SameLabelsExactly(a: seq<seq<byte>>, b: seq<seq<byte>>)
    requires ValidLabels(a) && DotFree(b) && Dotted(a) == Dotted(b)
    ensures SameLabelsUpToCase(a, b) <==> DotFree(a)
  {
    LowerLabelsSame(a, b);
    if DotFree(a) { SameNameSameLabels(a, b); }
    if LowerLabels(a) == LowerLabels(b) {
      forall l | l in a ensures DOT !in l {
        var i :| 0 <= i < |a| && a[i] == l;
        DotKept(a[i]);
        DotKept(b[i]);
        assert LowerLabels(a)[i] == LowerLabels(b)[i];
      }
    }
  }

  /** A packet that reads as an ordinary name asks for that name's labels exactly when none of its
      labels holds a dot. */
  lemma NameAsksForItsLabels(packet: seq<byte>, head: seq<byte>, labels: seq<seq<byte>>, qtype: byte, b: seq<seq<byte>>)
    requires Encodes(packet, head, labels, qtype)
    requires DotFree(b) && Parse(packet) == Ok(Dotted(b))
    ensures SameLabelsUpToCase(labels, b) <==> DotFree(labels)
  {
    RoundTrip(packet, head, labels, qtype);
    SameLabelsExactly(labels, b);
  }

  lemma DottedSplits(a: seq<seq<byte>>)
    requires DotFree(a)
    ensures a == [] <==> Dotted(a) == ""
    ensures a != [] ==> Text.Split(Dotted(a), '.') == LowerLabels(a)
  {
    if a != [] {
      forall s | s in LowerLabels(a) ensures '.' !in s && s != [] {
        var i :| 0 <= i < |a| && LowerLabels(a)[i] == s;
        LowerDot(a[i]);
      }
      Text.SplitJoin(LowerLabels(a), '.');
      assert LowerLabels(a)[0] in LowerLabels(a);
    }
  }

  /** The parser allows a dot inside a label, and such a label reads as two. */
  lemma DotInsideLabelCollides() returns (a: seq<seq<byte>>, b: seq<seq<byte>>)
    ensures ValidLabels(a) && ValidLabels(b) && Dotted(a) == Dotted(b) && |a| != |b|
  {
    var x: byte, y: byte := 97, 98;
    a, b := [[x, DOT, y]], [[x], [y]];
    assert LowerLabel(a[0]) == "a.b" && LowerLabel(b[0]) == "a" && LowerLabel(b[1]) == "b";
    assert LowerLabels(a) == ["a.b"] && LowerLabels(b) == ["a", "b"];
    assert ["a", "b"][1..] == ["b"];
    assert Dotted(b) == "a" + "." + "b";
  }
}
