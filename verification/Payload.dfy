/** The canonical bytes of an approval payload (kahyad/internal/approval/payload.go). */
module Payload {
  import opened Wrappers
  import opened Bytes
  import opened Decimal

  // A slice length is a non-negative 63-bit number.
  type Field = s: string | |s| < 0x8000_0000_0000_0000 witness ""

  function EncodeFields(fields: seq<Field>): string {
    if fields == [] then ""
    else Put64(|fields[0]|) + fields[0] + EncodeFields(fields[1..])
  }

  // The inverse: reads length-prefixed fields until the input is used up.
  function DecodeFields(s: string): Option<seq<Field>>
    decreases |s|
  {
    if s == "" then Some([])
    else if |s| < 8 then None
    else
      var n := FromBigEndian(s[..8]);
      if n > |s| - 8 || n >= 0x8000_0000_0000_0000 then None
      else
        var rest := DecodeFields(s[8 + n..]);
        if rest.None? then None else Some([s[8..8 + n]] + rest.value)
  }

  // Decoding undoes encoding, for field lists of any length.
  lemma {:induction false} DecodeEncode(fields: seq<Field>)
    ensures DecodeFields(EncodeFields(fields)) == Some(fields)
    decreases |fields|
  {
    if fields != [] {
      var f, s := fields[0], EncodeFields(fields);
      Put64Value(|f|);
      assert s[..8] == Put64(|f|);
      assert s[8..8 + |f|] == f;
      assert s[8 + |f|..] == EncodeFields(fields[1..]);
      DecodeEncode(fields[1..]);
      assert [f] + fields[1..] == fields;
    }
  }

  lemma {:induction false} EncodeInjective(a: seq<Field>, b: seq<Field>)
    requires EncodeFields(a) == EncodeFields(b)
    ensures a == b
  {
    DecodeEncode(a);
    DecodeEncode(b);
  }

  // Where the k-th field starts: after the fields before it, each behind the eight bytes of its length.
  function Offset(fields: seq<Field>, k: nat): nat
    requires k <= |fields|
  {
    if k == 0 then 0 else Offset(fields, k - 1) + 8 + |fields[k - 1]|
  }

  lemma {:induction false} OffsetTail(fields: seq<Field>, k: nat)
    requires 0 < k <= |fields|
    ensures Offset(fields, k) == 8 + |fields[0]| + Offset(fields[1..], k - 1)
  {
    if k > 1 {
      OffsetTail(fields, k - 1);
      assert fields[1..][k - 2] == fields[k - 1];
    }
  }

  lemma {:induction false} AllBytes(fields: seq<Field>)
    ensures |EncodeFields(fields)| == Offset(fields, |fields|)
  {
    if fields != [] {
      AllBytes(fields[1..]);
      OffsetTail(fields, |fields|);
    }
  }

  // The field and its length are at this place.
  predicate StandsAt(s: string, o: nat, f: Field) {
    o + 8 + |f| <= |s| && s[o..o + 8] == Put64(|f|) && s[o + 8..o + 8 + |f|] == f
  }

  lemma Shifted(head: string, s: string, o: nat, f: Field)
    requires StandsAt(s, o, f)
    ensures StandsAt(head + s, |head| + o, f)
  {
    var t, p := head + s, |head| + o;
    assert t[p..p + 8] == s[o..o + 8];
    assert t[p + 8..p + 8 + |f|] == s[o + 8..o + 8 + |f|];
  }

  lemma FirstStands(f: Field, rest: string)
    ensures StandsAt(Put64(|f|) + f + rest, 0, f)
  {
  }

  // There stands its length as a big-endian number, and then the field; and there is nothing else.
  lemma {:induction false} FieldAt(fields: seq<Field>, k: nat)
    requires k < |fields|
    ensures StandsAt(EncodeFields(fields), Offset(fields, k), fields[k])
    ensures |EncodeFields(fields)| == Offset(fields, |fields|)
    decreases |fields|
  {
    AllBytes(fields);
    var f, rest := fields[0], EncodeFields(fields[1..]);
    if k == 0 {
      FirstStands(f, rest);
    } else {
      FieldAt(fields[1..], k - 1);
      Shifted(Put64(|f|) + f, rest, Offset(fields[1..], k - 1), fields[k]);
      OffsetTail(fields, k);
    }
  }

  // The loop of the source.
  method EncodeAll(fields: seq<Field>) returns (buf: string)
    ensures buf == EncodeFields(fields)
  {
    buf := "";
    for i := 0 to |fields|
      invariant buf + EncodeFields(fields[i..]) == EncodeFields(fields)
    {
      var lenBuf := Put64(|fields[i]|);
      assert fields[i..][1..] == fields[i + 1..];
      assert EncodeFields(fields[i..]) == (lenBuf + fields[i]) + EncodeFields(fields[i + 1..]);
      buf := buf + lenBuf;
      buf := buf + fields[i];
    }
  }

  datatype Kind = FileEdit | ShellScript | Osascript | Egress | Message | Shortcut

  function KindText(k: Kind): Field {
    match k
    case FileEdit => "file_edit"
    case ShellScript => "shell_script"
    case Osascript => "osascript"
    case Egress => "egress"
    case Message => "message"
    case Shortcut => "shortcut"
  }

  lemma KindTextInjective(a: Kind, b: Kind)
    requires KindText(a) == KindText(b)
    ensures a == b
  {
    assert |KindText(FileEdit)| == 9 && |KindText(Osascript)| == 9 && KindText(FileEdit)[0] != KindText(Osascript)[0];
    assert |KindText(ShellScript)| == 12 && |KindText(Egress)| == 6 && |KindText(Message)| == 7 && |KindText(Shortcut)| == 8;
  }

  // What each Build function serialises, after canonicalisation of the display text. A file edit carries
  // its rendered diff.
  datatype Material =
    | FileEditOf(path: Field, diff: Field)
    | ShellScriptOf(imageDigest: Field, workdir: Field, script: Field)
    | OsascriptOf(script: Field)
    | EgressOf(method_: Field, host: Field, byteCount: int)
    | MessageOf(recipient: Field, body: Field)
    | ShortcutOf(name: Field, inputPath: Field)
  {
    function Kind(): Kind {
      match this
      case FileEditOf(_, _) => FileEdit
      case ShellScriptOf(_, _, _) => ShellScript
      case OsascriptOf(_) => Osascript
      case EgressOf(_, _, _) => Egress
      case MessageOf(_, _) => Message
      case ShortcutOf(_, _) => Shortcut
    }
  }

  // strconv.FormatInt of a 64-bit count is never longer than 20 characters.
  predicate CountFits(m: Material) {
    m.EgressOf? ==> |IntText(m.byteCount)| < 0x8000_0000_0000_0000
  }

  function Fields(m: Material): (fs: seq<Field>)
    requires CountFits(m)
    ensures fs != []
  {
    [KindText(m.Kind())]
    + match m
      case FileEditOf(path, diff) => [path, diff]
      case ShellScriptOf(imageDigest, workdir, script) => [imageDigest, workdir, script]
      case OsascriptOf(script) => [script]
      case EgressOf(method_, host, byteCount) => [method_, host, IntText(byteCount)]
      case MessageOf(recipient, body) => [recipient, body]
      case ShortcutOf(name, inputPath) => [name, inputPath]
  }

  function CanonicalBytes(m: Material): string
    requires CountFits(m)
  {
    EncodeFields(Fields(m))
  }

  // What the canonical bytes say, field by field.
  lemma {:induction false} CanonicalFields(m: Material)
    requires CountFits(m)
    ensures DecodeFields(CanonicalBytes(m)).Some?
    ensures var fields := DecodeFields(CanonicalBytes(m)).value;
            match m
            case FileEditOf(path, diff) => fields == ["file_edit", path, diff]
            case ShellScriptOf(imageDigest, workdir, script) => fields == ["shell_script", imageDigest, workdir, script]
            case OsascriptOf(script) => fields == ["osascript", script]
            case EgressOf(method_, host, byteCount) => fields == ["egress", method_, host, IntText(byteCount)]
            case MessageOf(recipient, body) => fields == ["message", recipient, body]
            case ShortcutOf(name, inputPath) => fields == ["shortcut", name, inputPath]
  {
    DecodeEncode(Fields(m));
  }

  // Two payloads of any kinds with the same canonical bytes have the same kind and the same fields.
  lemma CanonicalBytesInjective(a: Material, b: Material)
    requires CountFits(a) && CountFits(b)
    requires CanonicalBytes(a) == CanonicalBytes(b)
    ensures a == b
  {
    EncodeInjective(Fields(a), Fields(b));
    assert Fields(a)[0] == Fields(b)[0];
    KindTextInjective(a.Kind(), b.Kind());
    var f, g := Fields(a), Fields(b);
    assert forall i | 0 <= i < |f| :: f[i] == g[i];
    if a.EgressOf? {
      IntTextInjective(a.byteCount, b.byteCount);
    }
  }
}
