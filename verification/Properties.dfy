/** `safeStringCopy`, `shouldResetProperty` and their use in `doMrProp`. */
module Properties {
  const NUL := '\0'
  const PROP_VALUE_MAX: nat := 92

  // ---------------------------------------------------------------------------
  // C strings
  // ---------------------------------------------------------------------------

  /** The characters of a buffer before the first NUL, or all of them. */
  function CString(buffer: seq<char>): (text: string)
    ensures text <= buffer && NUL !in text
    ensures |text| < |buffer| ==> buffer[|text|] == NUL
  {
    if buffer == [] || buffer[0] == NUL then [] else [buffer[0]] + CString(buffer[1..])
  }

  /** A string that is followed by a NUL, or fills the buffer, is what the buffer holds. */
  lemma {:induction false} CStringIs(buffer: seq<char>, text: string)
    requires text <= buffer && NUL !in text
    requires |text| < |buffer| ==> buffer[|text|] == NUL
    ensures CString(buffer) == text
    decreases |buffer|
  {
    if text != [] {
      assert buffer[0] == text[0] && buffer[0] in text;
      CStringIs(buffer[1..], text[1..]);
      assert text == [text[0]] + text[1..];
    }
  }

  function Truncated(text: string, n: nat): (r: string)
    ensures r <= text && |r| <= n && (|r| == n || r == text)
  {
    if |text| <= n then text else text[..n]
  }

  method Strlen(s: array<char>) returns (n: nat)
    requires NUL in s[..]
    ensures n == |CString(s[..])|
  {
    n := 0;
    while s[n] != NUL
      invariant n < s.Length && forall k :: 0 <= k < n ==> s[k] != NUL
      invariant exists k :: n <= k < s.Length && s[k] == NUL
      decreases s.Length - n
    {
      n := n + 1;
    }
    CStringIs(s[..], s[..n]);
  }

  method Strnlen(s: array<char>, count: nat) returns (n: nat)
    requires count <= s.Length
    ensures n == |CString(s[..count])|
  {
    n := 0;
    while n < count && s[n] != NUL
      invariant n <= count && forall k :: 0 <= k < n ==> s[k] != NUL
    {
      n := n + 1;
    }
    CStringIs(s[..count], s[..n]);
  }

  /** Copying behind the first `start` characters: it stops at the first NUL or after
      `count` characters, and then writes one more NUL. */
  method CopyAt(dest: array<char>, start: nat, src: array<char>, count: nat)
    requires dest != src
    requires NUL in src[..] || count <= src.Length
    requires start + |Truncated(CString(src[..]), count)| < dest.Length
    modifies dest
    ensures var cut := Truncated(CString(src[..]), count);
            && (forall k :: 0 <= k < |cut| ==> dest[start + k] == cut[k])
            && dest[start + |cut|] == NUL
            && forall k :: 0 <= k < dest.Length && !(start <= k <= start + |cut|) ==> dest[k] == old(dest[k])
  {
    ghost var cut := Truncated(CString(src[..]), count);
    var i := 0;
    while i < count && src[i] != NUL
      invariant i <= |cut|
      invariant forall k :: 0 <= k < i ==> dest[start + k] == cut[k]
      invariant forall k :: 0 <= k < dest.Length && !(start <= k < start + i) ==> dest[k] == old(dest[k])
      decreases count - i
    {
      dest[start + i] := src[i];
      i := i + 1;
    }
    dest[start + i] := NUL;
    assert i == |cut|;
  }

  method Strncat(dest: array<char>, src: array<char>, count: nat)
    requires dest != src && NUL in dest[..]
    requires NUL in src[..] || count <= src.Length
    requires |CString(dest[..])| + |Truncated(CString(src[..]), count)| < dest.Length
    modifies dest
    ensures var text := CString(old(dest[..])) + Truncated(CString(src[..]), count);
            dest[..] == text + [NUL] + old(dest[..])[|text| + 1..]
  {
    hide Truncated;
    ghost var was, cut := dest[..], Truncated(CString(src[..]), count);
    var start := Strlen(dest);
    assert forall k :: 0 <= k < start ==> was[k] == CString(was)[k];
    hide CString;
    CopyAt(dest, start, src, count);
    Assemble(dest[..], was, CString(was) + cut);
  }

  lemma {:induction false} Assemble(now: seq<char>, was: seq<char>, text: string)
    requires |now| == |was| && |text| < |was| && now[|text|] == NUL
    requires forall k :: 0 <= k < |text| ==> now[k] == text[k]
    requires forall k :: |text| < k < |was| ==> now[k] == was[k]
    ensures now == text + [NUL] + was[|text| + 1..]
  {
  }

  // ---------------------------------------------------------------------------
  // safeStringCopy
  // ---------------------------------------------------------------------------

  /** The buffer after a copy: the string that the source holds, cut to fit, terminated, and
      the old content behind it. */
  function Copied(dest: seq<char>, src: seq<char>, size: nat): (r: seq<char>)
    requires size <= |dest|
    ensures |r| == |dest|
  {
    if size == 0 then dest else
    var text := Truncated(CString(src), size - 1);
    text + [NUL] + dest[|text| + 1..]
  }

  method SafeStringCopy(dest: array<char>, src: array<char>, destSize: nat) returns (length: nat)
    requires dest != src && destSize <= dest.Length
    requires NUL in src[..] || destSize <= src.Length + 1
    modifies dest
    ensures dest[..] == Copied(old(dest[..]), src[..], destSize)
    ensures length == if destSize == 0 then 0 else |Truncated(CString(src[..]), destSize - 1)|
  {
    if destSize < 1 {
      return 0;
    }
    hide CString, Truncated;
    ghost var was, source := dest[..], src[..];
    dest[0] := NUL;
    ghost var emptied := dest[..];
    assert emptied == was[0 := NUL] && NUL in emptied && src[..] == source;
    CStringIs(emptied, []);
    Strncat(dest, src, destSize - 1);
    assert src[..] == source;
    CopiedInto(was, emptied, source, destSize, dest[..]);
    length := Strlen(dest);
  }

  lemma {:induction false} CopiedInto(was: seq<char>, emptied: seq<char>, src: seq<char>, size: nat, now: seq<char>)
    requires 0 < size <= |was| && emptied == was[0 := NUL]
    requires |Truncated(CString(src), size - 1)| < |was| - |CString(emptied)|
    requires var text := Truncated(CString(src), size - 1);
             now == CString(emptied) + text + [NUL] + emptied[|CString(emptied) + text| + 1..]
    requires CString(emptied) == []
    ensures now == Copied(was, src, size)
    ensures CString(now) == Truncated(CString(src), size - 1) && NUL in now
  {
    var text := Truncated(CString(src), size - 1);
    assert [] + text == text;
    assert now[|text|] == NUL;
    CStringIs(now, text);
  }

  /** Whatever the source buffer holds, terminated or not, the copy is a terminated string
      within its size: the source's string if that fits, and else its longest beginning
      that does. */
  lemma {:induction false} CopyHoldsString(dest: seq<char>, src: seq<char>, size: nat)
    requires 0 < size <= |dest|
    ensures var text := CString(Copied(dest, src, size));
            && |text| < size && text <= CString(src)
            && (text == CString(src) <==> |CString(src)| < size)
            && (text != CString(src) ==> |text| == size - 1)
    ensures forall k :: size <= k < |dest| ==> Copied(dest, src, size)[k] == dest[k]
  {
    CStringIs(Copied(dest, src, size), Truncated(CString(src), size - 1));
  }

  // ---------------------------------------------------------------------------
  // shouldResetProperty
  // ---------------------------------------------------------------------------

  /** What a property holds; `is_long()` is a field here, and the name is its string. */
  datatype PropInfo = PropInfo(name: string, isLong: bool, serial: bv32, value: seq<char>)

  /** Everything from the first NUL on is NUL. */
  predicate ZeroTail(value: seq<char>) {
    forall k :: |CString(value)| <= k < |value| ==> value[k] == NUL
  }

  predicate Modified(serial: bv32) {
    serial & 0xFF_FFFF != 0
  }

  predicate NeedsReset(pi: PropInfo) {
    "ro." <= pi.name && !pi.isLong && (Modified(pi.serial) || !ZeroTail(pi.value))
  }

  /** A property in the memory that the library shares between processes. */
  class Property {
    const name: string
    const isLong: bool
    var serial: bv32
    const value: array<char>

    constructor (name: string, isLong: bool, serial: bv32, value: array<char>)
      ensures this.name == name && this.isLong == isLong && this.serial == serial && this.value == value
    {
      this.name, this.isLong, this.serial, this.value := name, isLong, serial, value;
    }

    ghost function View(): PropInfo
      reads this, value
    {
      PropInfo(name, isLong, serial, value[..])
    }

    /** `__system_property_update`: the value is written and the rest of the field filled
        with NUL.  What becomes of the serial is left to the library. */
    method Update(text: array<char>, length: nat, newSerial: bv32 -> bv32)
      requires text != value && length <= text.Length && length < value.Length
      modifies this, value
      ensures View() == old(View()).(value := Padded(text[..length], value.Length), serial := newSerial(old(serial)))
    {
      var i := 0;
      while i < length
        invariant i <= length && forall k :: 0 <= k < i ==> value[k] == text[k]
        invariant text[..] == old(text[..]) && serial == old(serial)
      {
        value[i] := text[i];
        i := i + 1;
      }
      while i < value.Length
        invariant length <= i <= value.Length && text[..] == old(text[..]) && serial == old(serial)
        invariant forall k :: 0 <= k < length ==> value[k] == text[k]
        invariant forall k :: length <= k < i ==> value[k] == NUL
      {
        value[i] := NUL;
        i := i + 1;
      }
      serial := newSerial(serial);
      assert value[..] == Padded(text[..length], value.Length);
    }
  }

  function Zeros(n: nat): (zeros: seq<char>)
    ensures |zeros| == n && forall k :: 0 <= k < n ==> zeros[k] == NUL
  {
    if n == 0 then [] else Zeros(n - 1) + [NUL]
  }

  function Padded(text: string, size: nat): (value: seq<char>)
    requires |text| <= size
    ensures |value| == size
  {
    text + Zeros(size - |text|)
  }

  method ShouldResetProperty(pi: Property) returns (reset: bool)
    requires pi.value.Length == PROP_VALUE_MAX
    ensures reset <==> NeedsReset(pi.View())
  {
    if !("ro." <= pi.name) || pi.isLong {
      return false;
    }
    if pi.serial & 0xFF_FFFF != 0 {
      return true;
    }
    var length := Strnlen(pi.value, PROP_VALUE_MAX);
    for i := length to PROP_VALUE_MAX
      invariant forall k :: length <= k < i ==> pi.value[k] == NUL
    {
      if pi.value[i] != NUL {
        return true;
      }
    }
    return false;
  }

  // ---------------------------------------------------------------------------
  // doMrProp
  // ---------------------------------------------------------------------------

  /** A property after the pass. */
  function AfterPass(pi: PropInfo, newSerial: bv32 -> bv32): PropInfo {
    if NeedsReset(pi)
    then pi.(value := Padded(Truncated(CString(pi.value), PROP_VALUE_MAX - 1), PROP_VALUE_MAX),
             serial := newSerial(pi.serial))
    else pi
  }

  /** What the pass does with each property. */
  method ResetIfNeeded(pi: Property, newSerial: bv32 -> bv32) returns (reset: bool)
    requires pi.value.Length == PROP_VALUE_MAX
    modifies pi, pi.value
    ensures reset <==> NeedsReset(old(pi.View()))
    ensures pi.View() == AfterPass(old(pi.View()), newSerial)
  {
    hide NeedsReset;
    reset := ShouldResetProperty(pi);
    if reset {
      var buffer := new char[PROP_VALUE_MAX];
      ghost var text := Truncated(CString(pi.value[..]), PROP_VALUE_MAX - 1);
      var length := SafeStringCopy(buffer, pi.value, PROP_VALUE_MAX);
      assert buffer[..length] == text;
      pi.Update(buffer, length, newSerial);
    }
  }

  /** One step of the pass leaves every other property alone. */
  method ResetOne(props: seq<Property>, i: nat, newSerial: bv32 -> bv32) returns (reset: bool)
    requires Separate(props) && i < |props|
    modifies props[i], props[i].value
    ensures reset <==> NeedsReset(old(props[i].View()))
    ensures props[i].View() == AfterPass(old(props[i].View()), newSerial)
    ensures forall k :: 0 <= k < |props| && k != i ==> props[k].View() == old(props[k].View())
  {
    hide NeedsReset, AfterPass;
    reset := ResetIfNeeded(props[i], newSerial);
    forall k | 0 <= k < |props| && k != i
      ensures props[k].View() == old(props[k].View())
    {
      assert props[k] != props[i] && props[k].value != props[i].value;
    }
  }

  function ResetsAmong(views: seq<PropInfo>): nat {
    if views == [] then 0
    else ResetsAmong(views[..|views| - 1]) + if NeedsReset(views[|views| - 1]) then 1 else 0
  }

  ghost function Views(props: seq<Property>): (views: seq<PropInfo>)
    reads set k | 0 <= k < |props| :: props[k], set k | 0 <= k < |props| :: props[k].value
    ensures |views| == |props| && forall k :: 0 <= k < |props| ==> views[k] == props[k].View()
  {
    if props == [] then [] else Views(props[..|props| - 1]) + [props[|props| - 1].View()]
  }

  /** Properties that share no memory, with values of the usual size. */
  predicate Separate(props: seq<Property>) {
    && (forall k :: 0 <= k < |props| ==> props[k].value.Length == PROP_VALUE_MAX)
    && forall j, k :: 0 <= j < k < |props| ==> props[j] != props[k] && props[j].value != props[k].value
  }

  lemma {:induction false} ResetsOneMore(views: seq<PropInfo>, i: nat)
    requires i < |views|
    ensures ResetsAmong(views[..i + 1]) == ResetsAmong(views[..i]) + if NeedsReset(views[i]) then 1 else 0
  {
    assert views[..i + 1][..i] == views[..i];
  }

  /** `__system_property_foreach` with the callback of the pass; the result is the number of
      properties that it has reset. */
  method ForeachProperty(props: seq<Property>, newSerial: bv32 -> bv32) returns (resets: nat)
    requires Separate(props)
    modifies set k | 0 <= k < |props| :: props[k], set k | 0 <= k < |props| :: props[k].value
    ensures resets == ResetsAmong(old(Views(props)))
    ensures forall k :: 0 <= k < |props| ==> props[k].View() == AfterPass(old(props[k].View()), newSerial)
  {
    hide AfterPass, NeedsReset, Separate, Property.View, ResetsAmong;
    ghost var was := Views(props);
    resets := 0;
    assert ResetsAmong(was[..0]) == 0 by { NoResets(was[..0]); }
    for i := 0 to |props|
      invariant resets == ResetsAmong(was[..i])
      invariant forall k :: 0 <= k < i ==> props[k].View() == AfterPass(was[k], newSerial)
      invariant forall k :: i <= k < |props| ==> props[k].View() == was[k]
    {
      var reset := ResetOne(props, i, newSerial);
      ResetsOneMore(was, i);
      if reset {
        resets := resets + 1;
      }
    }
    assert was[..|props|] == was;
  }

  lemma {:induction false} NoResets(views: seq<PropInfo>)
    requires views == []
    ensures ResetsAmong(views) == 0
  {
  }

  /** The two static variables of `doMrProp`. */
  class PropertyPass {
    var isInitialized: bool
    var resetCount: nat

    constructor ()
      ensures !isInitialized && resetCount == 0
    {
      isInitialized, resetCount := false, 0;
    }

    /** `initOk` is the outcome of initializing the library. */
    method DoMrProp(props: seq<Property>, initOk: bool, newSerial: bv32 -> bv32)
      requires Separate(props)
      modifies this, set k | 0 <= k < |props| :: props[k], set k | 0 <= k < |props| :: props[k].value
      ensures isInitialized == (old(isInitialized) || initOk)
      ensures !isInitialized ==> resetCount == old(resetCount) && Views(props) == old(Views(props))
      ensures isInitialized ==>
                resetCount == old(resetCount) + ResetsAmong(old(Views(props))) &&
                forall k :: 0 <= k < |props| ==> props[k].View() == AfterPass(old(props[k].View()), newSerial)
    {
      hide AfterPass, NeedsReset, Separate, Property.View, ResetsAmong;
      if !isInitialized {
        if !initOk {
          return;
        }
        isInitialized := true;
      }
      var resets := ForeachProperty(props, newSerial);
      resetCount := resetCount + resets;
    }
  }

  // ---------------------------------------------------------------------------
  // What the pass achieves
  // ---------------------------------------------------------------------------

  lemma {:induction false} PaddedHolds(text: string, size: nat)
    requires |text| <= size && NUL !in text
    ensures CString(Padded(text, size)) == text && ZeroTail(Padded(text, size))
  {
    CStringIs(Padded(text, size), text);
  }

  /** Whatever a property's field held, terminated or not, the value that the pass writes
      has nothing behind its end, and it is the same string, unless that filled the whole
      field and lost its last character. */
  lemma {:induction false} PassCleansTail(pi: PropInfo, newSerial: bv32 -> bv32)
    requires |pi.value| == PROP_VALUE_MAX && NeedsReset(pi)
    ensures var after, text := AfterPass(pi, newSerial), CString(pi.value);
            && ZeroTail(after.value)
            && CString(after.value) == (if |text| == PROP_VALUE_MAX then text[..PROP_VALUE_MAX - 1] else text)
  {
    PaddedHolds(Truncated(CString(pi.value), PROP_VALUE_MAX - 1), PROP_VALUE_MAX);
  }

  /** A property is reset again by a second pass exactly if the library gave it a serial
      that still counts as modified. */
  lemma {:induction false} ResetAgainIff(pi: PropInfo, newSerial: bv32 -> bv32)
    requires |pi.value| == PROP_VALUE_MAX
    ensures NeedsReset(AfterPass(pi, newSerial)) <==> NeedsReset(pi) && Modified(newSerial(pi.serial))
    ensures !NeedsReset(AfterPass(pi, newSerial)) ==>
              AfterPass(AfterPass(pi, newSerial), newSerial) == AfterPass(pi, newSerial)
  {
    if NeedsReset(pi) {
      PassCleansTail(pi, newSerial);
    }
  }

  /** It takes the padding: writing the terminated copy over the old value changes nothing
      in the field, so that whatever stood behind the end would still stand there. */
  lemma {:induction false} CopyAloneKeepsTail(value: seq<char>)
    requires NUL in value
    ensures Copied(value, value, |value|) == value
  {
    var text := CString(value);
    assert |text| < |value|;
    Assemble(value, value, text);
  }

  /** The tail scan finds nothing exactly if no character follows a NUL anywhere. */
  lemma {:induction false} ZeroTailMeaning(value: seq<char>)
    ensures ZeroTail(value) <==> forall i, j :: 0 <= i < j < |value| && value[i] == NUL ==> value[j] == NUL
  {
    var n := |CString(value)|;
    forall k | 0 <= k < n
      ensures value[k] != NUL
    {
      assert CString(value)[k] in CString(value);
    }
  }

  /** Which properties are reset, spelled out: the short ones named `ro.` and more, if the
      low 24 bits of the serial are not all zero or a character follows a NUL. */
  lemma {:induction false} ResetIffTouched(pi: PropInfo)
    ensures NeedsReset(pi) <==>
            && |pi.name| >= 3 && pi.name[0] == 'r' && pi.name[1] == 'o' && pi.name[2] == '.'
            && !pi.isLong
            && (pi.serial & 0x00FF_FFFF != 0 ||
                exists i, j :: 0 <= i < j < |pi.value| && pi.value[i] == '\0' && pi.value[j] != '\0')
  {
    NameStarts(pi.name);
    TailHasCharacter(pi.value);
    hide ZeroTail;
  }

  lemma {:induction false} NameStarts(name: string)
    ensures "ro." <= name <==> |name| >= 3 && name[0] == 'r' && name[1] == 'o' && name[2] == '.'
  {
    assert "ro." == ['r', 'o', '.'];
  }

  lemma {:induction false} TailHasCharacter(value: seq<char>)
    ensures !ZeroTail(value) <==>
            exists i, j :: 0 <= i < j < |value| && value[i] == '\0' && value[j] != '\0'
  {
    ZeroTailMeaning(value);
    hide ZeroTail;
  }

  function ResetIndices(views: seq<PropInfo>): set<nat> {
    set k: nat | k < |views| && NeedsReset(views[k])
  }

  /** The counter counts properties. */
  lemma {:induction false} ResetsAreCounted(views: seq<PropInfo>)
    ensures ResetsAmong(views) == |ResetIndices(views)|
    decreases |views|
  {
    hide NeedsReset;
    if views == [] {
      assert ResetIndices(views) == {};
    } else {
      var n := |views| - 1;
      ResetsAreCounted(views[..n]);
      assert ResetIndices(views) == ResetIndices(views[..n]) + if NeedsReset(views[n]) then {n} else {};
    }
  }
}
