/** The AWG server configuration file: what the panel wants on an interface (internal/awg/instance.go),
    what a parsed file holds (internal/awg/import_parse.go), and the keys both sides name. */
module ConfModel {
  import opened Text

  datatype Peer = Peer(privateKey: string, publicKey: string, psk: string, allowedIPs: string)

  datatype Version = V15 | V2 | V3 | V31

  /** NormalizeAWGVersion: an unknown or absent version means 2. */
  function NormalizeVersion(v: string): Version {
    if v == "1.5" then V15 else if v == "3" then V3 else if v == "3.1" then V31 else V2
  }

  function Rank(v: Version): nat {
    match v case V15 => 0 case V2 => 1 case V3 => 2 case V31 => 3
  }

  /** The lines a server file can hold in its [Interface] section. */
  datatype Key =
    | PrivateKey | ListenPort | Address | MTU | Table | DNS
    | Jc | Jmin | Jmax | S1 | S2 | S3 | S4 | H1 | H2 | H3 | H4
    | HeaderProtectionKey | ContentPaddingAddition | RekeyAfterTime | RekeyTimeout
    | RejectAfterTime | KeepaliveTimeout | MaxHandshakeAttempts
    | RandomTrailers | DisableCookies | I1 | I2 | I3 | I4 | I5 | PostUp | PostDown

  function Name(k: Key): string {
    match k
    case PrivateKey => "PrivateKey" case ListenPort => "ListenPort" case Address => "Address"
    case MTU => "MTU" case Table => "Table" case DNS => "DNS"
    case Jc => "Jc" case Jmin => "Jmin" case Jmax => "Jmax"
    case S1 => "S1" case S2 => "S2" case S3 => "S3" case S4 => "S4"
    case H1 => "H1" case H2 => "H2" case H3 => "H3" case H4 => "H4"
    case HeaderProtectionKey => "HeaderProtectionKey"
    case ContentPaddingAddition => "ContentPaddingAddition"
    case RekeyAfterTime => "RekeyAfterTime" case RekeyTimeout => "RekeyTimeout"
    case RejectAfterTime => "RejectAfterTime" case KeepaliveTimeout => "KeepaliveTimeout"
    case MaxHandshakeAttempts => "MaxHandshakeAttempts"
    case RandomTrailers => "RandomTrailers" case DisableCookies => "DisableCookies"
    case I1 => "I1" case I2 => "I2" case I3 => "I3" case I4 => "I4" case I5 => "I5"
    case PostUp => "PostUp" case PostDown => "PostDown"
  }

  predicate IsNumber(k: Key) {
    match k
    case ListenPort | MTU | Jc | Jmin | Jmax | S1 | S2 | S3 | S4 => true
    case _ => false
  }

  predicate IsFlag(k: Key) { k.RandomTrailers? || k.DisableCookies? }

  /** Under what condition the renderer writes a line. */
  datatype Gate = Always | IfAddress | SinceV2 | Header | ProtectionKey | Timer | Since31 | Packet | Hook | Never

  function GateOf(k: Key): Gate {
    match k
    case Address => IfAddress
    case DNS => Never
    case S3 | S4 => SinceV2
    case H1 | H2 | H3 | H4 => Header
    case HeaderProtectionKey => ProtectionKey
    case ContentPaddingAddition | RekeyAfterTime | RekeyTimeout | RejectAfterTime | KeepaliveTimeout
       | MaxHandshakeAttempts => Timer
    case RandomTrailers | DisableCookies => Since31
    case I1 | I2 | I3 | I4 | I5 => Packet
    case PostUp | PostDown => Hook
    case _ => Always
  }

  /** The keys applyInterfaceKey knows; Table, PostUp and PostDown are read by awg-quick only. */
  predicate Known(k: Key) { k != Table && k != PostUp && k != PostDown }

  const DEVICE_KEYS: seq<Key> := [PrivateKey, Address, ListenPort, MTU, DNS, Jc, Jmin, Jmax]
  const PADDING_KEYS: seq<Key> := [S1, S2, S3, S4, H1, H2, H3, H4]
  const PACKET_KEYS: seq<Key> := [I1, I2, I3, I4, I5, HeaderProtectionKey]
  const TIMER_KEYS: seq<Key> := [ContentPaddingAddition, RekeyAfterTime, RekeyTimeout, RejectAfterTime,
                                 KeepaliveTimeout, MaxHandshakeAttempts, RandomTrailers, DisableCookies]
  const KNOWN_KEYS: seq<Key> := DEVICE_KEYS + PADDING_KEYS + PACKET_KEYS + TIMER_KEYS

  function Find(s: string, keys: seq<Key>): Option<Key> {
    if keys == [] then None else if Name(keys[0]) == s then Some(keys[0]) else Find(s, keys[1..])
  }

  /** The switch of applyInterfaceKey. */
  function KeyOf(s: string): Option<Key> { Find(s, KNOWN_KEYS) }

  /** Length, first two and last characters: enough to tell the key names apart. */
  function Shape(k: Key): (int, char, char, char) {
    match k
    case PrivateKey => (10, 'P', 'r', 'y') case ListenPort => (10, 'L', 'i', 't') case Address => (7, 'A', 'd', 's')
    case MTU => (3, 'M', 'T', 'U') case Table => (5, 'T', 'a', 'e') case DNS => (3, 'D', 'N', 'S')
    case Jc => (2, 'J', 'c', 'c') case Jmin => (4, 'J', 'm', 'n') case Jmax => (4, 'J', 'm', 'x')
    case S1 => (2, 'S', '1', '1') case S2 => (2, 'S', '2', '2') case S3 => (2, 'S', '3', '3') case S4 => (2, 'S', '4', '4')
    case H1 => (2, 'H', '1', '1') case H2 => (2, 'H', '2', '2') case H3 => (2, 'H', '3', '3') case H4 => (2, 'H', '4', '4')
    case HeaderProtectionKey => (19, 'H', 'e', 'y') case ContentPaddingAddition => (22, 'C', 'o', 'n')
    case RekeyAfterTime => (14, 'R', 'e', 'e') case RekeyTimeout => (12, 'R', 'e', 't')
    case RejectAfterTime => (15, 'R', 'e', 'e') case KeepaliveTimeout => (16, 'K', 'e', 't')
    case MaxHandshakeAttempts => (20, 'M', 'a', 's')
    case RandomTrailers => (14, 'R', 'a', 's') case DisableCookies => (14, 'D', 'i', 's')
    case I1 => (2, 'I', '1', '1') case I2 => (2, 'I', '2', '2') case I3 => (2, 'I', '3', '3')
    case I4 => (2, 'I', '4', '4') case I5 => (2, 'I', '5', '5')
    case PostUp => (6, 'P', 'o', 'p') case PostDown => (8, 'P', 'o', 'n')
  }

  predicate Shaped(name: string, shape: (int, char, char, char)) {
    && |name| == shape.0 && |name| >= 2
    && name[0] == shape.1 && name[1] == shape.2 && name[|name| - 1] == shape.3
  }

  lemma NameShape(k: Key)
    ensures Shaped(Name(k), Shape(k))
  {
    if Shape(k).0 == 2 {
      ShortNames(k);
    } else if Shape(k).0 <= 12 {
      MiddleNames(k);
    } else {
      LongNames(k);
    }
  }

  lemma ShortNames(k: Key)
    requires Shape(k).0 == 2
    ensures Shaped(Name(k), Shape(k))
  {
  }

  lemma MiddleNames(k: Key)
    requires 2 < Shape(k).0 <= 12
    ensures Shaped(Name(k), Shape(k))
  {
  }

  lemma LongNames(k: Key)
    requires Shape(k).0 > 12
    ensures Shaped(Name(k), Shape(k))
  {
  }

  lemma NameInjective(a: Key, b: Key)
    requires Name(a) == Name(b)
    ensures a == b
  {
    NameShape(a);
    NameShape(b);
    ShapeInjective(a, b);
  }

  lemma ShapeInjective(a: Key, b: Key)
    requires Shape(a) == Shape(b)
    ensures a == b
  {
    if Shape(a).0 == 2 {
      ShortInjective(a, b);
    } else if Shape(a).0 <= 12 {
      MiddleInjective(a, b);
    } else {
      LongInjective(a, b);
    }
  }

  lemma ShortInjective(a: Key, b: Key)
    requires Shape(a) == Shape(b) && Shape(a).0 == 2
    ensures a == b
  {
  }

  lemma MiddleInjective(a: Key, b: Key)
    requires Shape(a) == Shape(b) && 2 < Shape(a).0 <= 12
    ensures a == b
  {
  }

  lemma LongInjective(a: Key, b: Key)
    requires Shape(a) == Shape(b) && Shape(a).0 > 12
    ensures a == b
  {
  }

  lemma {:induction false} FindOwn(k: Key, keys: seq<Key>)
    ensures Find(Name(k), keys) == if k in keys then Some(k) else None
  {
    if keys != [] {
      if Name(keys[0]) == Name(k) {
        NameInjective(keys[0], k);
      } else {
        FindOwn(k, keys[1..]);
      }
    }
  }

  lemma KnownListed(k: Key)
    ensures k in KNOWN_KEYS <==> Known(k)
  {
  }

  /** Every key is read back from its own name. */
  lemma KeyOfName(k: Key)
    ensures KeyOf(Name(k)) == if Known(k) then Some(k) else None
  {
    KnownListed(k);
    FindOwn(k, KNOWN_KEYS);
  }

  /** A key is read from no text but its own name. */
  lemma {:induction false} FindOnlyName(s: string, keys: seq<Key>)
    ensures Find(s, keys).Some? ==> s == Name(Find(s, keys).value) && Find(s, keys).value in keys
  {
    if keys != [] {
      FindOnlyName(s, keys[1..]);
    }
  }
}
