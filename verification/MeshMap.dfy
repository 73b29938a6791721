/** The walk command's output: replies are streamed into one file as they arrive, and that file is
    then spliced into the report by seeking and overwriting. */
module MeshMap {
  import opened Options

  /** A file and its position; writing replaces what is at the position and may extend the file. */
  class File {
    var bytes: string
    var pos: nat

    constructor (bytes: string)
      ensures this.bytes == bytes && pos == 0
    {
      this.bytes, pos := bytes, 0;
    }

    method SeekFromEnd(back: nat)
      requires back <= |bytes|
      modifies this`pos
      ensures pos == |bytes| - back
    {
      pos := |bytes| - back;
    }

    method SeekStart()
      modifies this`pos
      ensures pos == 0
    {
      pos := 0;
    }

    method Write(data: string)
      requires pos <= |bytes|
      modifies this
      ensures pos == old(pos) + |data| <= |bytes|
      ensures bytes == old(bytes[..pos]) + data + if pos <= |old(bytes)| then old(bytes)[pos..] else []
    {
      var end := pos + |data|;
      bytes := bytes[..pos] + data + (if end <= |bytes| then bytes[end..] else []);
      pos := end;
    }
  }

  /** A reply: its encoding as one JSON value, and its node's position. */
  datatype Reply = Reply(encoded: string, lat: real, lon: real)

  predicate IsMapped(r: Reply) { r.lat != 0.0 && r.lon != 0.0 }

  function Mapped(replies: seq<Option<Reply>>): seq<string> {
    if replies == [] then []
    else
      var front, last := Mapped(replies[..|replies| - 1]), replies[|replies| - 1];
      if last.Some? && IsMapped(last.value) then front + [last.value.encoded] else front
  }

  /** The encodings of the replies that have both a latitude and a longitude, in order, and no others. */
  lemma {:induction false} MappedAt(replies: seq<Option<Reply>>, k: nat)
    requires k < |replies|
    ensures var before := Mapped(replies[..k]); var all := Mapped(replies);
      var shown := replies[k].Some? && replies[k].value.lat != 0.0 && replies[k].value.lon != 0.0;
      && |before| <= |all| && before == all[..|before|]
      && (shown ==> |before| < |all| && all[|before|] == replies[k].value.encoded)
      && Mapped(replies[..k + 1]) == before + if shown then [replies[k].value.encoded] else []
  {
    var last := |replies| - 1;
    assert replies[..k + 1][..k] == replies[..k];
    if k == last {
      assert replies[..k + 1] == replies;
    } else {
      var front := replies[..last];
      assert front[..k] == replies[..k] && front[..k + 1] == replies[..k + 1];
      MappedAt(front, k);
    }
  }

  /** With nothing yet collected. */
  lemma MappedNone()
    ensures Mapped([]) == []
  {
  }

  function NilCount(replies: seq<Option<Reply>>): nat {
    if replies == [] then 0
    else NilCount(replies[..|replies| - 1]) + if replies[|replies| - 1].None? then 1 else 0
  }

  /** Every value is followed by the encoder's newline and a comma. */
  function Listed(items: seq<string>): string {
    if items == [] then "" else Listed(items[..|items| - 1]) + items[|items| - 1] + "\n,"
  }

  /** The same with commas only between the values. */
  function Joined(items: seq<string>): string
    requires items != []
  {
    if |items| == 1 then items[0] + "\n" else Joined(items[..|items| - 1]) + "," + items[|items| - 1] + "\n"
  }

  function ArrayText(items: seq<string>): string {
    if items == [] then "[]" else "[" + Joined(items) + "]"
  }

  lemma {:induction false} ListedIsJoined(items: seq<string>)
    requires items != []
    ensures Listed(items) == Joined(items) + ","
  {
    var front, last := items[..|items| - 1], items[|items| - 1];
    if front == [] {
      assert Listed(items) == "" + last + "\n,";
      assert "\n," == "\n" + ",";
    } else {
      ListedIsJoined(front);
      assert "\n," == "\n" + ",";
    }
  }

  /** The encoder ends every value with a newline. */
  function Encode(written: string, r: Reply): string { (written + r.encoded) + "\n" }

  /** A shown reply, the encoder's newline and a comma extend the text so far. */
  lemma TextGrows(replies: seq<Option<Reply>>, n: nat, written: string)
    requires n < |replies| && written == "[" + Listed(Mapped(replies[..n]))
    ensures var next := Mapped(replies[..n + 1]);
      if replies[n].Some? && IsMapped(replies[n].value) then
        "[" + Listed(next) == Encode(written, replies[n].value) + "," && |next| == |Mapped(replies[..n])| + 1
      else next == Mapped(replies[..n])
    ensures NilCount(replies[..n + 1]) == NilCount(replies[..n]) + if replies[n].None? then 1 else 0
  {
    assert replies[..n + 1][..n] == replies[..n];
    if replies[n].Some? && IsMapped(replies[n].value) {
      var before, x := Mapped(replies[..n]), replies[n].value.encoded;
      ListedPush(before, x);
      assert Mapped(replies[..n + 1]) == before + [x];
      Regroup("[", Listed(before), x);
    }
  }

  lemma ListedPush(items: seq<string>, x: string)
    ensures Listed(items + [x]) == (Listed(items) + x) + "\n,"
  {
    assert (items + [x])[..|items|] == items;
  }

  lemma Regroup(bracket: string, text: string, x: string)
    ensures bracket + ((text + x) + "\n,") == (((bracket + text) + x) + "\n") + ","
  {
  }

  /** The loop over the replies. */
  method WriteReplies(replies: seq<Option<Reply>>) returns (written: string, completed: nat, nonMapped: nat)
    ensures written == "[" + Listed(Mapped(replies))
    ensures completed == |replies| == |Mapped(replies)| + nonMapped + NilCount(replies)
  {
    completed, nonMapped := 0, 0;
    written := "[";
    assert replies[..0] == [];
    for n := 0 to |replies|
      invariant written == "[" + Listed(Mapped(replies[..n]))
      invariant completed == n == |Mapped(replies[..n])| + nonMapped + NilCount(replies[..n])
    {
      TextGrows(replies, n, written);
      hide Listed, Mapped, NilCount, Encode;
      completed := completed + 1;
      if replies[n].None? {
        continue;
      }
      var resp := replies[n].value;
      if resp.lat != 0.0 && resp.lon != 0.0 {
        written := Encode(written, resp);
        written := written + ",";
      } else {
        nonMapped := nonMapped + 1;
      }
    }
    assert replies[..|replies|] == replies;
  }

  /** The replies, and the bracket written over the last comma. */
  method CollectReplies(replies: seq<Option<Reply>>) returns (f: File, completed: nat, nonMapped: nat)
    ensures fresh(f) && f.bytes == if Mapped(replies) == [] then "]" else ArrayText(Mapped(replies))
    ensures completed == |replies| == |Mapped(replies)| + nonMapped + NilCount(replies)
  {
    var written;
    written, completed, nonMapped := WriteReplies(replies);
    f := new File(written);
    f.SeekFromEnd(1);
    f.Write("]");
    var items := Mapped(replies);
    hide Mapped, NilCount, Joined;
    if items == [] {
      assert written == "[";
    } else {
      ListedIsJoined(items);
      assert written == ("[" + Joined(items)) + ",";
    }
  }

  const KEY := ",\"nodeInfo\":"

  /** createFile: the report's closing brace and newline are overwritten by the new key, then come
      the collected replies and a closing brace. */
  method CreateFile(header: string, responses: File) returns (out: File)
    requires header != ""
    modifies responses`pos
    ensures fresh(out) && out.bytes == header[..|header| - 1] + KEY + responses.bytes + "}"
  {
    out := new File(header + "\n");
    out.SeekFromEnd(2);
    assert (header + "\n")[..|header| - 1] == header[..|header| - 1];
    out.Write(KEY);
    assert out.bytes == header[..|header| - 1] + KEY;
    responses.SeekStart();
    var all := responses.bytes[responses.pos..];
    out.Write(all);
    assert out.bytes == header[..|header| - 1] + KEY + responses.bytes;
    out.Write("}");
  }

  /** The report with one more member, the array of the mapped replies in order of arrival. */
  function Spliced(header: string, items: seq<string>): string
    requires header != ""
  {
    header[..|header| - 1] + KEY + ArrayText(items) + "}"
  }

  /** Byte for byte, for one reply on the map and for two. */
  lemma SplicedBytes(header: string, x: string, y: string)
    requires header != ""
    ensures Spliced(header, [x]) == header[..|header| - 1] + ",\"nodeInfo\":" + ("[" + (x + "\n") + "]") + "}"
    ensures Spliced(header, [x, y])
         == header[..|header| - 1] + ",\"nodeInfo\":" + ("[" + (x + "\n" + "," + y + "\n") + "]") + "}"
  {
    assert [x, y][..1] == [x];
    assert Joined([x]) == x + "\n";
    assert Joined([x, y]) == Joined([x]) + "," + y + "\n";
  }

  /** The file is the report with the array spliced in before its closing brace exactly when at least
      one reply is on the map; with none, the array lacks its opening bracket. */
  method WalkOutput(header: string, replies: seq<Option<Reply>>) returns (out: File, completed: nat, nonMapped: nat)
    requires header != ""
    ensures fresh(out) && (out.bytes == Spliced(header, Mapped(replies)) <==> Mapped(replies) != [])
    ensures completed == |Mapped(replies)| + nonMapped + NilCount(replies)
  {
    var f;
    f, completed, nonMapped := CollectReplies(replies);
    out := CreateFile(header, f);
    assert Mapped(replies) == [] ==> |out.bytes| + 1 == |Spliced(header, Mapped(replies))|;
  }
}
