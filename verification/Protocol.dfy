/** Messages and input events exchanged by server and client (`common/src/lib.rs`). */
module Protocol {
  import opened Base

  datatype MouseButton = Left | Right | Middle | Back | Forward

  datatype Event =
    | MouseDelta(dx: int, dy: int)
    | MouseButtonPress(button: MouseButton)
    | MouseButtonRelease(button: MouseButton)
    | Wheel(deltaX: int, deltaY: int)
    | KeyPress(code: nat, modifiers: bv8)
    | KeyRelease(code: nat, modifiers: bv8)
    | ReleaseAll

  datatype Envelope =
    | Hello(name: string, version: string)
    | HelloAck(fileTransferPort: nat, serverName: string)
    | PairRequest(nonce: seq<byte>, fingerprint: string, proof: seq<byte>)
    | PairAccept
    | PairReject(reason: string)
    | ToggleForward(on: bool)
    | Input(event: Event)
    | ClipboardSet(text: string)
    | FileOffer(id: nat, fileName: string, size: nat, sha256: seq<byte>)
    | FileAccept(id: nat, startOffset: nat)
    | FileReject(id: nat, reason: string)
    | FileComplete(id: nat)
    | Ping(at: nat)
    | Pong(at: nat)
    | Error(message: string)
    | Goodbye
}
