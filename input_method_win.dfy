/** The Windows IMM32 input method of views: the answers to the IME's
    document-feed, reconversion and character-position requests (a window of
    text around the selection or composition, copied into the caller's
    RECONVERTSTRING buffer), the candidate-popup flag, the Ctrl+Shift text
    direction switch and whether the IME is enabled for the focused field.

    The focused text input client is a value describing what its queries
    return; the IMM32 manager's calls and the client's text are inputs. */
module InputMethodWin {
  import opened Wrappers

  const TWO_32: nat := 0x1_0000_0000
  const TWO_64: nat := 0x1_0000_0000_0000_0000

  type size_t = x: nat | x < TWO_64
  type DWORD = x: nat | x < TWO_32

  /** size_t subtraction and addition, which wrap. */
  function Sub(a: size_t, b: size_t): size_t { (a - b) % TWO_64 }
  function Add(a: size_t, b: size_t): size_t { (a + b) % TWO_64 }

  /** Assigning a size_t to a DWORD field keeps the low 32 bits. */
  function ToDword(x: size_t): DWORD { x % TWO_32 }

  /** Extra characters before and after the target range given to the IME. */
  const kExtraNumberOfChars: size_t := 20

  /** sizeof(RECONVERTSTRING): eight DWORDs. */
  const kReconvertStringSize: size_t := 32
  /** sizeof(WCHAR). */
  const kWcharSize: size_t := 2
  /** sizeof(IMECHARPOSITION): two DWORDs, a POINT, a UINT and a RECT. */
  const kImeCharPositionSize: size_t := 36

  /** ui::Range: a start and an end, either of which may be the larger. */
  datatype Range = Range(start: size_t, end: size_t)
  {
    function GetMin(): size_t { if start < end then start else end }
    function GetMax(): size_t { if start < end then end else start }
    function Length(): size_t { GetMax() - GetMin() }
    predicate IsEmpty() { start == end }
    /** Not the invalid range, both of whose ends are the largest size_t. */
    predicate IsValid() { !(start == TWO_64 - 1 && end == TWO_64 - 1) }
    predicate Contains(r: Range)
    {
      IsValid() && r.IsValid() && GetMin() <= r.GetMin() && r.GetMax() <= GetMax()
    }
  }

  /** ui::TextInputType, as far as the input method distinguishes it. */
  datatype TextInputType = TEXT_INPUT_TYPE_NONE | TEXT_INPUT_TYPE_TEXT | TEXT_INPUT_TYPE_PASSWORD | OtherInputType(code: int)

  /** What the focused ui::TextInputClient's queries return: None for a
      query that fails. */
  datatype Client = Client(
    inputType: TextInputType,
    textRange: Option<Range>,
    hasCompositionText: bool,
    compositionRange: Option<Range>,
    selectionRange: Option<Range>)

  /** GetTextInputType: NONE without a client. */
  function InputType(client: Option<Client>): TextInputType
  {
    if client.None? then TEXT_INPUT_TYPE_NONE else client.value.inputType
  }

  /** The text input types for which the input method is enabled. */
  predicate ImeAllowed(t: TextInputType)
  {
    t != TEXT_INPUT_TYPE_NONE && t != TEXT_INPUT_TYPE_PASSWORD
  }

  /** An LRESULT: zero, the buffer size the request needs, the address of
      the filled buffer, or one for a filled character position. */
  datatype LResult = Zero | NeedSize(size: size_t) | BufferAddress | One

  // ---------------------------------------------------------------------
  // The document-feed window

  /** The text range clipped to at most kExtraNumberOfChars before the
      target's minimum and after its maximum (size_t arithmetic). */
  function FeedWindow(text: Range, target: Range): Range
  {
    var start := if Sub(target.GetMin(), text.start) > kExtraNumberOfChars
                 then Sub(target.GetMin(), kExtraNumberOfChars) else text.start;
    var end := if Sub(text.end, target.GetMax()) > kExtraNumberOfChars
               then Add(target.GetMax(), kExtraNumberOfChars) else text.end;
    Range(start, end)
  }

  /** For a forward text range that contains the target, the window lies in
      the text range, contains the target, and reaches at most 20
      characters beyond it on each side, exactly 20 where it was clipped. */
  lemma FeedWindowBounds(text: Range, target: Range)
    requires text.start <= text.end && text.Contains(target)
    ensures var w := FeedWindow(text, target);
            text.start <= w.start <= target.GetMin() <= target.GetMax() <= w.end <= text.end &&
            target.GetMin() - w.start <= kExtraNumberOfChars &&
            w.end - target.GetMax() <= kExtraNumberOfChars &&
            (w.start == text.start || target.GetMin() - w.start == kExtraNumberOfChars) &&
            (w.end == text.end || w.end - target.GetMax() == kExtraNumberOfChars)
  {
    var lo, hi := target.GetMin(), target.GetMax();
    assert Sub(lo, text.start) == lo - text.start;
    assert Sub(text.end, hi) == text.end - hi;
    if text.end - hi > kExtraNumberOfChars {
      assert Add(hi, kExtraNumberOfChars) == hi + kExtraNumberOfChars;
    }
    if lo - text.start > kExtraNumberOfChars {
      assert Sub(lo, kExtraNumberOfChars) == lo - kExtraNumberOfChars;
    }
  }

  /** The size of a RECONVERTSTRING holding `len` characters (size_t). */
  function ReconvertSize(len: size_t): size_t
  {
    Add(kReconvertStringSize, (len * kWcharSize) % TWO_64)
  }

  /** When the caller's buffer is large enough for a length that does not
      wrap the size computation, the DWORD fields hold the exact values. */
  lemma FilledFieldsExact(len: size_t, offsetChars: size_t, dwSize: DWORD)
    requires kReconvertStringSize + len * kWcharSize < TWO_64
    requires ReconvertSize(len) <= dwSize && offsetChars <= len
    ensures ToDword(len) == len
    ensures ToDword((offsetChars * kWcharSize) % TWO_64) == offsetChars * kWcharSize
  {
  }

  // ---------------------------------------------------------------------
  // The caller's buffers

  /** RECONVERTSTRING followed by its text. */
  class ReconvertString {
    var dwSize: DWORD
    var dwVersion: DWORD
    var dwStrLen: DWORD
    var dwStrOffset: DWORD
    var dwCompStrLen: DWORD
    var dwCompStrOffset: DWORD
    var dwTargetStrLen: DWORD
    var dwTargetStrOffset: DWORD
    var text: string

    constructor (dwSize: DWORD)
      ensures this.dwSize == dwSize && text == ""
    {
      this.dwSize := dwSize;
      text := "";
    }
  }

  /** IMECHARPOSITION. */
  class ImeCharPosition {
    var dwSize: DWORD
    var dwCharPos: DWORD
    var x: int
    var y: int
    var cLineHeight: int

    constructor (dwSize: DWORD, dwCharPos: DWORD)
      ensures this.dwSize == dwSize && this.dwCharPos == dwCharPos
    {
      this.dwSize := dwSize;
      this.dwCharPos := dwCharPos;
    }
  }

  /** gfx::Rect. */
  datatype Rect = Rect(x: int, y: int, width: nat, height: nat)

  // ---------------------------------------------------------------------
  // The input method

  datatype TextDirection = UNKNOWN_DIRECTION | RIGHT_TO_LEFT | LEFT_TO_RIGHT

  datatype KeyboardCode = VKEY_SHIFT | VKEY_CONTROL | OtherKey(code: int)
  datatype EventType = ET_KEY_PRESSED | ET_KEY_RELEASED
  datatype KeyEvent = KeyEvent(eventType: EventType, code: KeyboardCode)

  /** The IMN_* notifications the popup flag follows. */
  datatype ImeNotification = IMN_OPENCANDIDATE | IMN_CLOSECANDIDATE | OtherNotification(code: int)

  /** The IMR_* requests. */
  datatype ImeRequest = IMR_RECONVERTSTRING | IMR_DOCUMENTFEED | IMR_QUERYCHARPOSITION | OtherRequest(code: int)

  class InputMethod {
    var isCandidatePopupOpen: bool
    var pendingRequestedDirection: TextDirection
    /** Whether the IMM32 manager has the IME enabled for the window. */
    var imeEnabled: bool
    /** ChangeTextDirectionAndLayoutAlignment calls on the client. */
    var directionChanges: seq<TextDirection>
    /** Key events passed on by DispatchKeyEventPostIME. */
    var dispatched: seq<KeyEvent>

    constructor ()
      ensures !isCandidatePopupOpen && pendingRequestedDirection == UNKNOWN_DIRECTION
      ensures directionChanges == [] && dispatched == []
    {
      isCandidatePopupOpen := false;
      pendingRequestedDirection := UNKNOWN_DIRECTION;
      imeEnabled := false;
      directionChanges := [];
      dispatched := [];
    }

    /** OnImeNotify: tracks whether a candidate window is open. */
    method OnImeNotify(notification: ImeNotification) returns (handled: bool, result: LResult)
      modifies this`isCandidatePopupOpen
      ensures !handled && result == Zero
      ensures notification == IMN_OPENCANDIDATE ==> isCandidatePopupOpen
      ensures notification == IMN_CLOSECANDIDATE ==> !isCandidatePopupOpen
      ensures notification.OtherNotification? ==> isCandidatePopupOpen == old(isCandidatePopupOpen)
    {
      match notification {
        case IMN_OPENCANDIDATE => isCandidatePopupOpen := true;
        case IMN_CLOSECANDIDATE => isCandidatePopupOpen := false;
        case OtherNotification(_) =>
      }
      handled, result := false, Zero;
    }

    /** DispatchKeyEvent: with a right-to-left layout installed and a text
        field focused, a Shift press while Ctrl+Shift is down records the
        requested direction (`ctrlShift`, from IsCtrlShiftPressed), any
        other key but Ctrl forgets it, and releasing Shift or Ctrl applies a
        recorded direction once. The key is then passed on. */
    method DispatchKeyEvent(key: KeyEvent, client: Option<Client>, rtlLayoutInstalled: bool,
                            ctrlShift: Option<TextDirection>)
      modifies this`pendingRequestedDirection, this`directionChanges, this`dispatched
      ensures dispatched == old(dispatched) + [key]
      ensures !rtlLayoutInstalled || InputType(client) == TEXT_INPUT_TYPE_NONE ==>
                pendingRequestedDirection == old(pendingRequestedDirection) &&
                directionChanges == old(directionChanges)
      ensures rtlLayoutInstalled && InputType(client) != TEXT_INPUT_TYPE_NONE ==>
                match key.eventType
                case ET_KEY_PRESSED =>
                  directionChanges == old(directionChanges) &&
                  pendingRequestedDirection ==
                    (if key.code == VKEY_SHIFT then (if ctrlShift.Some? then ctrlShift.value else old(pendingRequestedDirection))
                     else if key.code == VKEY_CONTROL then old(pendingRequestedDirection)
                     else UNKNOWN_DIRECTION)
                case ET_KEY_RELEASED =>
                  if (key.code == VKEY_SHIFT || key.code == VKEY_CONTROL) && old(pendingRequestedDirection) != UNKNOWN_DIRECTION
                  then directionChanges == old(directionChanges) + [old(pendingRequestedDirection)] &&
                       pendingRequestedDirection == UNKNOWN_DIRECTION
                  else directionChanges == old(directionChanges) &&
                       pendingRequestedDirection == old(pendingRequestedDirection)
    {
      if rtlLayoutInstalled && InputType(client) != TEXT_INPUT_TYPE_NONE {
        if key.eventType == ET_KEY_PRESSED {
          if key.code == VKEY_SHIFT {
            if ctrlShift.Some? {
              pendingRequestedDirection := ctrlShift.value;
            }
          } else if key.code != VKEY_CONTROL {
            pendingRequestedDirection := UNKNOWN_DIRECTION;
          }
        } else if (key.code == VKEY_SHIFT || key.code == VKEY_CONTROL) &&
                  pendingRequestedDirection != UNKNOWN_DIRECTION {
          directionChanges := directionChanges + [pendingRequestedDirection];
          pendingRequestedDirection := UNKNOWN_DIRECTION;
        }
      }
      dispatched := dispatched + [key];
    }

    /** UpdateIMEState: the IME is disabled in no field and in password
        fields, and enabled otherwise. */
    method UpdateIMEState(client: Option<Client>)
      modifies this`imeEnabled
      ensures imeEnabled <==> ImeAllowed(InputType(client))
    {
      match InputType(client)
      case TEXT_INPUT_TYPE_NONE => imeEnabled := false;
      case TEXT_INPUT_TYPE_PASSWORD => imeEnabled := false;
      case _ => imeEnabled := true;
    }
  }

  /** The range OnDocumentFeed answers about: the composition when there is
      a non-empty one, else a valid selection. */
  function FeedTarget(c: Client): Option<Range>
  {
    var composition := if c.hasCompositionText then c.compositionRange else None;
    if composition.Some? && !composition.value.IsEmpty() then composition
    else if c.selectionRange.Some? && c.selectionRange.value.IsValid() then c.selectionRange
    else None
  }

  /** The window OnDocumentFeed answers with: present exactly when there is
      a client whose text range is non-empty and contains the feed target. */
  function DocumentFeedWindow(client: Option<Client>): Option<Range>
  {
    if client.Some? && client.value.textRange.Some? && !client.value.textRange.value.IsEmpty() &&
       FeedTarget(client.value).Some? && client.value.textRange.value.Contains(FeedTarget(client.value).value)
    then Some(FeedWindow(client.value.textRange.value, FeedTarget(client.value).value))
    else None
  }

  /** What OnDocumentFeed promises: without a buffer, the needed size exactly
      when there is a window (else zero); with one, the buffer's address
      exactly when there is a window, the buffer is large enough and the text
      can be read, in which case the buffer holds the window's text and
      fields; otherwise zero and the buffer untouched. */
  twostate predicate DocumentFeedAnswered(client: Option<Client>, reconv: ReconvertString?,
                                          getTextFromRange: Range -> Option<string>, result: LResult)
    reads reconv
  {
    var w := DocumentFeedWindow(client);
    (reconv == null ==> result == (if w.Some? then NeedSize(ReconvertSize(w.value.Length())) else Zero)) &&
    (reconv != null ==>
       (result == Zero || result == BufferAddress) &&
       (result == BufferAddress <==>
          w.Some? && old(reconv.dwSize) >= ReconvertSize(w.value.Length()) && getTextFromRange(w.value).Some?) &&
       (result == Zero ==> unchanged(reconv)) &&
       (result == BufferAddress ==>
          var c := client.value;
          var target := FeedTarget(c).value;
          var offset := ToDword((Sub(target.GetMin(), w.value.start) * kWcharSize) % TWO_64);
          reconv.text == getTextFromRange(w.value).value &&
          reconv.dwSize == old(reconv.dwSize) && reconv.dwVersion == 0 &&
          reconv.dwStrLen == ToDword(w.value.Length()) && reconv.dwStrOffset == kReconvertStringSize &&
          reconv.dwCompStrLen == (if c.hasCompositionText then ToDword(target.Length()) else 0) &&
          reconv.dwCompStrOffset == offset &&
          reconv.dwTargetStrLen == ToDword(target.Length()) && reconv.dwTargetStrOffset == offset))
  }

  /** OnDocumentFeed. `getTextFromRange` is the client's GetTextFromRange. */
  method OnDocumentFeed(client: Option<Client>, reconv: ReconvertString?, getTextFromRange: Range -> Option<string>)
    returns (result: LResult)
    modifies reconv
    ensures DocumentFeedAnswered(client, reconv, getTextFromRange, result)
  {
    if client.None? {
      return Zero;
    }
    var c := client.value;
    if c.textRange.None? || c.textRange.value.IsEmpty() {
      return Zero;
    }
    var textRange := c.textRange.value;
    var target := FeedTarget(c);
    if target.None? {
      return Zero;
    }
    if !textRange.Contains(target.value) {
      return Zero;
    }
    var w := FeedWindow(textRange, target.value);
    var len := w.Length();
    var needSize := ReconvertSize(len);
    if reconv == null {
      return NeedSize(needSize);
    }
    if reconv.dwSize < needSize {
      return Zero;
    }
    var text := getTextFromRange(w);
    if text.None? {
      return Zero;
    }
    var offset := ToDword((Sub(target.value.GetMin(), w.start) * kWcharSize) % TWO_64);
    reconv.dwVersion := 0;
    reconv.dwStrLen := ToDword(len);
    reconv.dwStrOffset := kReconvertStringSize;
    reconv.dwCompStrLen := if c.hasCompositionText then ToDword(target.value.Length()) else 0;
    reconv.dwCompStrOffset := offset;
    reconv.dwTargetStrLen := ToDword(target.value.Length());
    reconv.dwTargetStrOffset := offset;
    reconv.text := text.value;
    return BufferAddress;
  }

  /** The range OnReconvertString answers with: the selection, when there is
      a client without composition text whose text range and selection are
      both non-empty. */
  function ReconvertSelection(client: Option<Client>): Option<Range>
  {
    if client.Some? && !client.value.hasCompositionText &&
       client.value.textRange.Some? && !client.value.textRange.value.IsEmpty() &&
       client.value.selectionRange.Some? && !client.value.selectionRange.value.IsEmpty()
    then client.value.selectionRange
    else None
  }

  /** What OnReconvertString promises, as DocumentFeedAnswered with the
      selection in place of the window; the whole buffer is the selection,
      which is both the composition and the target. */
  twostate predicate ReconvertAnswered(client: Option<Client>, reconv: ReconvertString?,
                                       getTextFromRange: Range -> Option<string>, result: LResult)
    reads reconv
  {
    var s := ReconvertSelection(client);
    (reconv == null ==> result == (if s.Some? then NeedSize(ReconvertSize(s.value.Length())) else Zero)) &&
    (reconv != null ==>
       (result == Zero || result == BufferAddress) &&
       (result == BufferAddress <==>
          s.Some? && old(reconv.dwSize) >= ReconvertSize(s.value.Length()) && getTextFromRange(s.value).Some?) &&
       (result == Zero ==> unchanged(reconv)) &&
       (result == BufferAddress ==>
          var len := ToDword(s.value.Length());
          reconv.text == getTextFromRange(s.value).value &&
          reconv.dwSize == old(reconv.dwSize) && reconv.dwVersion == 0 &&
          reconv.dwStrLen == len && reconv.dwStrOffset == kReconvertStringSize &&
          reconv.dwCompStrLen == len && reconv.dwCompStrOffset == 0 &&
          reconv.dwTargetStrLen == len && reconv.dwTargetStrOffset == 0))
  }

  /** OnReconvertString: refuses while a composition exists or without a
      non-empty text range and selection. */
  method OnReconvertString(client: Option<Client>, reconv: ReconvertString?, getTextFromRange: Range -> Option<string>)
    returns (result: LResult)
    modifies reconv
    ensures ReconvertAnswered(client, reconv, getTextFromRange, result)
  {
    if client.None? {
      return Zero;
    }
    var c := client.value;
    if c.hasCompositionText {
      return Zero;
    }
    if c.textRange.None? || c.textRange.value.IsEmpty() {
      return Zero;
    }
    if c.selectionRange.None? || c.selectionRange.value.IsEmpty() {
      return Zero;
    }
    var selection := c.selectionRange.value;
    var len := selection.Length();
    var needSize := ReconvertSize(len);
    if reconv == null {
      return NeedSize(needSize);
    }
    if reconv.dwSize < needSize {
      return Zero;
    }
    var text := getTextFromRange(selection);
    if text.None? {
      return Zero;
    }
    reconv.dwVersion := 0;
    reconv.dwStrLen := ToDword(len);
    reconv.dwStrOffset := kReconvertStringSize;
    reconv.dwCompStrLen := ToDword(len);
    reconv.dwCompStrOffset := 0;
    reconv.dwTargetStrLen := ToDword(len);
    reconv.dwTargetStrOffset := 0;
    reconv.text := text.value;
    return BufferAddress;
  }

  /** What OnQueryCharPosition promises: one exactly for a large enough
      structure, a client and known bounds of the asked character, which
      then fill the position; otherwise zero and the structure untouched. */
  twostate predicate CharPositionAnswered(client: Option<Client>, position: ImeCharPosition?,
                                          characterBounds: nat -> Option<Rect>, result: LResult)
    reads position
  {
    (result == One || result == Zero) &&
    (result == One <==>
       position != null && old(position.dwSize) >= kImeCharPositionSize && client.Some? &&
       characterBounds(old(position.dwCharPos)).Some?) &&
    (result == One ==>
       var r := characterBounds(old(position.dwCharPos)).value;
       position.x == r.x && position.y == r.y && position.cLineHeight == r.height &&
       position.dwSize == old(position.dwSize) && position.dwCharPos == old(position.dwCharPos)) &&
    (position != null && result == Zero ==> unchanged(position))
  }

  /** OnQueryCharPosition. `characterBounds` is the client's
      GetCompositionCharacterBounds. */
  method OnQueryCharPosition(client: Option<Client>, position: ImeCharPosition?, characterBounds: nat -> Option<Rect>)
    returns (result: LResult)
    modifies position
    ensures CharPositionAnswered(client, position, characterBounds, result)
  {
    if position == null {
      return Zero;
    }
    if position.dwSize < kImeCharPositionSize {
      return Zero;
    }
    if client.None? {
      return Zero;
    }
    var rect := characterBounds(position.dwCharPos);
    if rect.None? {
      return Zero;
    }
    position.x := rect.value.x;
    position.y := rect.value.y;
    position.cLineHeight := rect.value.height;
    return One;
  }

  /** OnImeRequest: no request is handled in no field or a password field;
      the three known requests are handled by their handlers. */
  method OnImeRequest(request: ImeRequest, client: Option<Client>, reconv: ReconvertString?,
                      position: ImeCharPosition?, getTextFromRange: Range -> Option<string>,
                      characterBounds: nat -> Option<Rect>)
    returns (handled: bool, result: LResult)
    modifies reconv, position
    ensures !ImeAllowed(InputType(client)) ==>
              !handled && result == Zero &&
              (reconv != null ==> unchanged(reconv)) && (position != null ==> unchanged(position))
    ensures ImeAllowed(InputType(client)) ==> (handled <==> !request.OtherRequest?)
    ensures !handled ==> result == Zero
    ensures ImeAllowed(InputType(client)) && request == IMR_RECONVERTSTRING ==>
              ReconvertAnswered(client, reconv, getTextFromRange, result) &&
              (position != null ==> unchanged(position))
    ensures ImeAllowed(InputType(client)) && request == IMR_DOCUMENTFEED ==>
              DocumentFeedAnswered(client, reconv, getTextFromRange, result) &&
              (position != null ==> unchanged(position))
    ensures ImeAllowed(InputType(client)) && request == IMR_QUERYCHARPOSITION ==>
              CharPositionAnswered(client, position, characterBounds, result) &&
              (reconv != null ==> unchanged(reconv))
    ensures ImeAllowed(InputType(client)) && request.OtherRequest? ==>
              (reconv != null ==> unchanged(reconv)) && (position != null ==> unchanged(position))
  {
    var t := InputType(client);
    if t == TEXT_INPUT_TYPE_NONE || t == TEXT_INPUT_TYPE_PASSWORD {
      return false, Zero;
    }
    match request
    case IMR_RECONVERTSTRING =>
      result := OnReconvertString(client, reconv, getTextFromRange);
      handled := true;
    case IMR_DOCUMENTFEED =>
      result := OnDocumentFeed(client, reconv, getTextFromRange);
      handled := true;
    case IMR_QUERYCHARPOSITION =>
      result := OnQueryCharPosition(client, position, characterBounds);
      handled := true;
    case OtherRequest(_) =>
      handled := false;
      result := Zero;
  }
}
