/** The wire types of every top-level message, as postcard lays them out, and the
    kind tag each carries. */
module MessageWire {
  import opened MachineInts
  import opened Wrappers
  import opened Postcard

  function Struct1(a: Schema): Schema { Tuple(Then(a, End)) }
  function Struct2(a: Schema, b: Schema): Schema { Tuple(Then(a, Then(b, End))) }
  function Struct3(a: Schema, b: Schema, c: Schema): Schema { Tuple(Then(a, Then(b, Then(c, End)))) }
  function Struct4(a: Schema, b: Schema, c: Schema, d: Schema): Schema {
    Tuple(Then(a, Then(b, Then(c, Then(d, End)))))
  }

  function Copies(n: nat, t: Schema): Schemas { if n == 0 then End else Then(t, Copies(n - 1, t)) }

  const UNIT: Schema := Tuple(End)

  /** An enum of two cases that carry nothing: pressed or released, and the like. */
  function Either(): Schema { Choice(Copies(2, UNIT)) }

  function WindowGeometry(): Schema { Struct4(I32, I32, U32, U32) }

  function WindowEvent(): Schema {
    Choice(
      Then(Struct4(U64, WindowGeometry(), Text, Text),  // Created
      Then(Struct2(U64, WindowGeometry()),              // Configured
      Then(Struct1(U64),                                // Destroyed
      Then(Struct2(U64, Text),                          // TitleChanged
      Then(Struct1(U64),                                // Minimized
      Then(Struct1(U64),                                // MoveRequested
      Then(Struct2(U64, Flag),                          // FullscreenChanged
      End))))))))
  }

  function FrameTileType(): Schema {
    Tuple(Then(U64, Then(U32, Then(U32, Then(U32, Then(U32, Then(U32, Then(Either(), Then(Blob, End)))))))))
  }

  function InputEvent(): Schema {
    Choice(
      Then(Struct3(U64, I32, I32),        // PointerMotion
      Then(Struct3(U64, U32, Either()),   // PointerButton
      Then(Struct3(U64, I32, I32),        // PointerScroll
      Then(Struct3(U64, U32, Either()),   // Key
      Then(Struct2(U64, Text),            // Text
      Then(Struct2(U64, Flag),            // Focus
      Then(Struct3(U64, U32, U32),        // Resize
      Then(Struct1(U64),                  // ToggleMaximize
      Then(Struct2(U64, Flag),            // SetFullscreen
      Then(Struct1(U64),                  // Close
      Then(Struct4(U64, Text, I32, I32),  // Preedit
      End))))))))))))
  }

  function Ipv4(): Schema { Tuple(Copies(4, U8)) }
  function Ipv6(): Schema { Tuple(Copies(16, U8)) }

  function IpAddr(): Schema { Choice(Then(Ipv4(), Then(Ipv6(), End))) }

  function SocketAddr(): Schema {
    Choice(Then(Struct2(Ipv4(), U16), Then(Struct2(Ipv6(), U16), End)))
  }

  function RpcMethod(): Schema {
    Choice(
      Then(Struct1(Text),                                                        // Authenticate
      Then(UNIT,                                                                 // Status
      Then(Tuple(Then(Text, Then(U16, Then(Flag, Then(Optional(IpAddr()),
                 Then(Optional(U16), Then(Optional(Text), End))))))),            // StartInstance
      Then(Struct1(Text),                                                        // StopInstance
      Then(Struct4(Text, Text, List(Text), U64),                                 // LaunchApp
      Then(Struct2(Text, U64),                                                   // WaitSocket
      Then(Struct4(Optional(Text), SocketAddr(), Optional(SocketAddr()), Text),  // PrepareDataPlane
      End))))))))
  }

  function InstanceSummary(): Schema { Struct4(Text, U16, U32, List(U32)) }

  function BootstrapBundle(): Schema {
    Tuple(Then(SocketAddr(), Then(Optional(SocketAddr()), Then(Text, Then(Optional(Text),
          Then(Struct3(Flag, Flag, Flag), End))))))
  }

  function RpcOk(): Schema {
    Choice(
      Then(UNIT,                                    // Authenticated
      Then(Struct2(U32, List(InstanceSummary())),   // Status
      Then(Struct1(U32),                            // InstanceStarted
      Then(UNIT,                                    // InstanceStopped
      Then(Struct1(U32),                            // AppLaunched
      Then(UNIT,                                    // SocketReady
      Then(BootstrapBundle(),                       // DataPlanePrepared
      End))))))))
  }

  function MessageCases(): Schemas {
    Then(Struct2(U16, Text),                                             // Hello
    Then(Struct3(U16, Text, U64),                                        // Welcome
    Then(Struct1(Text),                                                  // Goodbye
    Then(Struct2(U64, U64),                                              // Ping
    Then(Struct2(U64, U64),                                              // Pong
    Then(Struct2(U16, Text),                                             // Error
    Then(Struct1(Text),                                                  // DataPlaneAuth
    Then(Struct2(U64, Choice(Copies(1, UNIT))),                          // DataPlaneChannel
    Then(Struct3(Text, U32, U32),                                        // ViewRequest
    Then(WindowEvent(),
    Then(FrameTileType(),
    Then(InputEvent(),
    Then(Struct2(U64, RpcMethod()),                                      // RpcRequest
    Then(Struct2(U64, Choice(Then(RpcOk(), Then(Text, End)))),           // RpcResponse
    Then(Struct3(Either(), U64, Text),                                   // Clipboard
    Then(Struct2(F32, Flag),                                             // VolumeChange
    End))))))))))))))))
  }

  function MessageSchema(): Schema { Choice(MessageCases()) }

  /** A top-level message: a value of the message type. */
  predicate IsMessage(v: Value) { HasType(v, MessageSchema()) }

  lemma SixteenMessages()
    ensures CaseCount(MessageCases()) == 16
  {
    hide Struct1, Struct2, Struct3, Struct4, Copies, Either, WindowEvent, FrameTileType, InputEvent, RpcMethod, RpcOk;
    var rest4 := MessageCases().tail.tail.tail.tail;
    var rest8 := rest4.tail.tail.tail.tail;
    var rest12 := rest8.tail.tail.tail.tail;
    assert rest12.tail.tail.tail.tail == End;
    assert CaseCount(rest12) == 4;
    assert CaseCount(rest8) == 8;
    assert CaseCount(rest4) == 12;
  }

  lemma MessageHasIndex(v: Value)
    requires IsMessage(v)
    ensures v.Pick? && v.index < 16
  {
    hide MessageCases;
    SixteenMessages();
  }

  // ---- kinds ---------------------------------------------------------------------------

  datatype Kind =
    | Hello | Welcome | Goodbye | Ping | Pong | ViewRequest | Error | DataPlaneAuth | DataPlaneChannel
    | WindowEventKind | FrameTileKind | InputEventKind | ImeEvent | RpcRequest | RpcResponse | Clipboard | VolumeChange

  function KindCode(k: Kind): u32 {
    match k
    case Hello => 1
    case Welcome => 2
    case Goodbye => 3
    case ViewRequest => 20
    case Ping => 10
    case Pong => 11
    case Error => 90
    case DataPlaneAuth => 91
    case DataPlaneChannel => 92
    case WindowEventKind => 100
    case FrameTileKind => 101
    case InputEventKind => 200
    case ImeEvent => 201
    case RpcRequest => 300
    case RpcResponse => 301
    case Clipboard => 400
    case VolumeChange => 410
  }

  function KindFromCode(n: u32): Option<Kind> {
    match n
    case 1 => Some(Hello)
    case 2 => Some(Welcome)
    case 3 => Some(Goodbye)
    case 10 => Some(Ping)
    case 11 => Some(Pong)
    case 20 => Some(ViewRequest)
    case 90 => Some(Error)
    case 91 => Some(DataPlaneAuth)
    case 92 => Some(DataPlaneChannel)
    case 100 => Some(WindowEventKind)
    case 101 => Some(FrameTileKind)
    case 200 => Some(InputEventKind)
    case 201 => Some(ImeEvent)
    case 300 => Some(RpcRequest)
    case 301 => Some(RpcResponse)
    case 400 => Some(Clipboard)
    case 410 => Some(VolumeChange)
    case _ => None
  }

  /** Decoding a kind undoes encoding it, and accepts nothing else. */
  lemma KindCodes(n: u32, k: Kind)
    ensures KindFromCode(n) == Some(k) <==> n == KindCode(k)
  {
  }

  function KindOf(v: Value): Kind
    requires IsMessage(v)
  {
    hide MessageSchema;
    MessageHasIndex(v);
    match v.index
    case 0 => Hello
    case 1 => Welcome
    case 2 => Goodbye
    case 3 => Ping
    case 4 => Pong
    case 5 => Error
    case 6 => DataPlaneAuth
    case 7 => DataPlaneChannel
    case 8 => ViewRequest
    case 9 => WindowEventKind
    case 10 => FrameTileKind
    case 11 => InputEventKind
    case 12 => RpcRequest
    case 13 => RpcResponse
    case 14 => Clipboard
    case _ => VolumeChange
  }

  /** The tag each message travels under, by its number among the messages on the wire. */
  lemma VariantCodes(v: Value)
    requires IsMessage(v)
    ensures v.Pick? && v.index < 16
    ensures KindCode(KindOf(v)) == [1, 2, 3, 10, 11, 90, 91, 92, 20, 100, 101, 200, 300, 301, 400, 410][v.index]
  {
    hide IsMessage;
    MessageHasIndex(v);
  }

  /** No message has the reserved input-method kind. */
  lemma NoMessageIsIme(v: Value)
    requires IsMessage(v)
    ensures KindOf(v) != ImeEvent
  {
    hide IsMessage;
  }
}
