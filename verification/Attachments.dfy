/**
 * Message content: the text, then one marker a line for each file, written by `buildMessageContent` and
 * read back by `parseMessageContent`.
 */
module Attachments {

  import opened Wrappers
  import opened Text
  import PercentEncoding

  datatype Kind = Image | Pdf

  datatype Attachment = Attachment(kind: Kind, url: string, name: string, size: nat)

  datatype File = File(url: string, name: string, size: nat, mimeType: string)

  datatype Message = Message(text: string, attachments: seq<Attachment>)

  // --- Printing ------------------------------------------------------------------------------------

  predicate IsImage(file: File)
  {
    "image/" <= file.mimeType
  }

  function Meta(file: File): string
  {
    if IsImage(file) then "image"
    else "file|" + PercentEncoding.Encode(file.name) + "|" + Decimal(file.size)
  }

  function Link(url: string): string
  {
    "](" + url + ")"
  }

  function Marker(file: File): string
  {
    "![" + (Meta(file) + Link(file.url))
  }

  function Markers(files: seq<File>): (markers: seq<string>)
    ensures |markers| == |files|
  {
    if files == [] then [] else [Marker(files[0])] + Markers(files[1..])
  }

  function NonEmpty(parts: seq<string>): seq<string>
  {
    if parts == [] then []
    else (if parts[0] == "" then [] else [parts[0]]) + NonEmpty(parts[1..])
  }

  function Join(parts: seq<string>): string
  {
    if parts == [] then ""
    else if |parts| == 1 then parts[0]
    else parts[0] + ("\n" + Join(parts[1..]))
  }

  function BuildMessageContent(text: string, files: seq<File>): string
  {
    Join(NonEmpty([Trim(text)] + Markers(files)))
  }

  lemma JoinFirst(part: string, rest: seq<string>)
    ensures Join([part] + rest) == if rest == [] then part else part + ("\n" + Join(rest))
  {
    assert ([part] + rest)[1..] == rest;
  }

  /** Joining with one more line. */
  lemma {:induction false} JoinLast(parts: seq<string>, last: string)
    ensures Join(parts + [last]) == if parts == [] then last else Join(parts) + ("\n" + last)
  {
    hide Join;
    if parts == [] {
      JoinFirst(last, []);
      assert parts + [last] == [last] + [];
    } else {
      var first, rest := parts[0], parts[1..];
      JoinLast(rest, last);
      assert parts + [last] == [first] + (rest + [last]) && parts == [first] + rest;
      JoinFirst(first, rest);
      JoinFirst(first, rest + [last]);
      assert first + ("\n" + (Join(rest) + ("\n" + last))) == (first + ("\n" + Join(rest))) + ("\n" + last);
    }
  }

  lemma NonEmptyFirst(part: string, rest: seq<string>)
    ensures NonEmpty([part] + rest) == if part == "" then NonEmpty(rest) else [part] + NonEmpty(rest)
    ensures NonEmpty([]) == []
  {
    assert ([part] + rest)[1..] == rest;
    assert [] + NonEmpty(rest) == NonEmpty(rest);
  }

  lemma {:induction false} NonEmptyLast(parts: seq<string>, last: string)
    requires last != ""
    ensures NonEmpty(parts + [last]) == NonEmpty(parts) + [last]
    ensures "" !in NonEmpty(parts)
  {
    hide NonEmpty;
    NonEmptyFirst(last, []);
    if parts == [] {
      assert parts + [last] == [last] + [] && [] + [last] == [last];
    } else {
      var first, rest := parts[0], parts[1..];
      NonEmptyLast(rest, last);
      assert parts == [first] + rest && parts + [last] == [first] + (rest + [last]);
      NonEmptyFirst(first, rest);
      NonEmptyFirst(first, rest + [last]);
      assert [first] + (NonEmpty(rest) + [last]) == ([first] + NonEmpty(rest)) + [last];
    }
  }

  lemma JoinEmptyIff(parts: seq<string>)
    requires "" !in parts
    ensures Join(parts) == "" <==> parts == []
  {
    if parts != [] {
      assert parts[0] in parts;
    }
  }

  lemma {:induction false} LastMarker(files: seq<File>, file: File)
    ensures Markers(files + [file]) == Markers(files) + [Marker(file)]
  {
    if files == [] {
      assert files + [file] == [file];
    } else {
      assert (files + [file])[1..] == files[1..] + [file];
      LastMarker(files[1..], file);
    }
  }

  /** An image is named by its URL alone, any other file by its encoded name, its size and its URL. */
  lemma MarkerText(file: File)
    ensures Marker(file) ==
            if "image/" <= file.mimeType then "![image](" + file.url + ")"
            else "![file|" + PercentEncoding.Encode(file.name) + "|" + Decimal(file.size) + "](" + file.url + ")"
  {
    if "image/" <= file.mimeType {
      assert "![" + ("image" + ("](" + file.url + ")")) == "![image](" + file.url + ")";
    } else {
      var name, size, url := PercentEncoding.Encode(file.name), Decimal(file.size), file.url;
      assert Marker(file) == "![" + (("file|" + name + "|" + size) + ("](" + url + ")"));
      Brackets(name, size, url);
    }
  }

  lemma Brackets(name: string, size: string, url: string)
    ensures "![" + (("file|" + name + "|" + size) + ("](" + url + ")")) ==
            "![file|" + name + "|" + size + "](" + url + ")"
  {
  }

  /** What is written: the trimmed text, then one line for each file. */
  lemma PrintedContent(text: string, files: seq<File>, file: File)
    ensures BuildMessageContent(text, []) == Trim(text)
    ensures var before := BuildMessageContent(text, files);
            var line := if "image/" <= file.mimeType then "![image](" + file.url + ")"
                        else "![file|" + PercentEncoding.Encode(file.name) + "|" + Decimal(file.size) +
                             "](" + file.url + ")";
            BuildMessageContent(text, files + [file]) == if before == "" then line else before + ("\n" + line)
  {
    hide BuildMessageContent, Marker, Trim, PercentEncoding.Encode, Decimal;
    OnlyText(text);
    MarkerText(file);
    PrintedLine(text, files, file);
  }

  lemma PrintedLine(text: string, files: seq<File>, file: File)
    ensures BuildMessageContent(text, files + [file]) ==
            if BuildMessageContent(text, files) == "" then Marker(file)
            else BuildMessageContent(text, files) + ("\n" + Marker(file))
  {
    hide NonEmpty, Join, Markers, Trim, Meta, Link;
    var parts := [Trim(text)] + Markers(files);
    var marker := Marker(file);
    LastMarker(files, file);
    assert [Trim(text)] + (Markers(files) + [marker]) == parts + [marker];
    NonEmptyLast(parts, marker);
    JoinLast(NonEmpty(parts), marker);
    JoinEmptyIff(NonEmpty(parts));
  }

  lemma OnlyText(text: string)
    ensures BuildMessageContent(text, []) == Trim(text)
  {
    hide Trim;
    var trimmed := Trim(text);
    assert Markers([]) == [] && [trimmed] + [] == [trimmed];
    assert [trimmed][1..] == [];
    assert NonEmpty([trimmed]) == if trimmed == "" then [] else [trimmed];
  }

  // --- Parsing -------------------------------------------------------------------------------------

  /** Characters until `]` or a newline. */
  function MetaRun(s: string): (n: nat)
    ensures n <= |s|
  {
    if s == "" || s[0] == ']' || s[0] == '\n' then 0 else MetaRun(s[1..]) + 1
  }

  predicate UrlChar(c: char)
  {
    c != ')' && !IsSpace(c)
  }

  /** Characters until `)` or white space. */
  function UrlRun(s: string): (n: nat)
    ensures n <= |s| && (forall i :: 0 <= i < n ==> UrlChar(s[i])) && (n < |s| ==> !UrlChar(s[n]))
  {
    if s == "" || !UrlChar(s[0]) then 0 else UrlRun(s[1..]) + 1
  }

  datatype Match = Match(meta: string, url: string, length: nat)

  function MetaAt(s: string): (n: Option<nat>)
    ensures n.Some? ==> n.value <= |s|
  {
    if "image" <= s then Some(5)
    else if "file|" <= s then Some(5 + MetaRun(s[5..]))
    else None
  }

  predicate Opens(s: string, first: char, second: char)
  {
    |s| >= 2 && s[0] == first && s[1] == second
  }

  /** `](url)` at the front. */
  function UrlAt(s: string): (url: Option<string>)
    ensures url.Some? ==> |url.value| + 3 <= |s|
  {
    if !Opens(s, ']', '(') then None
    else
      var n := UrlRun(s[2..]);
      if n == 0 || n == |s| - 2 || s[2 + n] != ')' then None else Some(s[2..2 + n])
  }

  /** The marker that `s` starts with; no run can be cut shorter, so there is no backtracking. */
  function MatchAt(s: string): (m: Option<Match>)
    ensures m.Some? ==> 0 < m.value.length <= |s|
  {
    if !Opens(s, '!', '[') || MetaAt(s[2..]).None? then None
    else
      var n := 2 + MetaAt(s[2..]).value;
      var url := UrlAt(s[n..]);
      if url.None? then None else Some(Match(s[2..n], url.value, n + |url.value| + 3))
  }

  /** The parts between bars. */
  function Split(s: string): (parts: seq<string>)
    ensures parts != []
  {
    if s == "" then [""]
    else if s[0] == '|' then [""] + Split(s[1..])
    else
      var rest := Split(s[1..]);
      [[s[0]] + rest[0]] + rest[1..]
  }

  function PartAt(parts: seq<string>, i: nat): string
  {
    if i < |parts| then parts[i] else ""
  }

  /** A name that cannot be decoded is kept as written. */
  function NameOf(raw: string): string
  {
    match PercentEncoding.Decode(raw)
    case Some(name) => name
    case None => raw
  }

  /** What is not a number counts as 0. */
  function ParseSize(raw: string): nat
  {
    var digits := Trim(raw);
    if forall c :: c in digits ==> IsDigit(c) then DecimalValue(digits) else 0
  }

  function AttachmentOf(m: Match): Attachment
  {
    if m.meta == "image" then Attachment(Image, m.url, "", 0)
    else
      var parts := Split(m.meta);
      Attachment(Pdf, m.url, NameOf(PartAt(parts, 1)), ParseSize(PartAt(parts, 2)))
  }

  /** What one step of the scan passes over, and what it leaves of it. */
  datatype Piece = Piece(length: nat, message: Message)

  function NextPiece(s: string): (piece: Piece)
    requires s != ""
    ensures 0 < piece.length <= |s|
  {
    match MatchAt(s)
    case Some(m) => Piece(m.length, Message("", [AttachmentOf(m)]))
    case None => Piece(1, Message([s[0]], []))
  }

  function Append(first: Message, rest: Message): Message
  {
    Message(first.text + rest.text, first.attachments + rest.attachments)
  }

  lemma AppendAssociates(a: Message, b: Message, c: Message)
    ensures Append(Append(a, b), c) == Append(a, Append(b, c))
  {
    assert (a.text + b.text) + c.text == a.text + (b.text + c.text);
    assert (a.attachments + b.attachments) + c.attachments == a.attachments + (b.attachments + c.attachments);
  }

  /** Markers from left to right, and the text without them. */
  function Scan(s: string): Message
    decreases |s|
  {
    if s == "" then Message("", [])
    else
      var piece := NextPiece(s);
      Append(piece.message, Scan(s[piece.length..]))
  }

  lemma ScanAdvances(text: string, attachments: seq<Attachment>, s: string)
    requires s != ""
    ensures Append(Message(text, attachments), Scan(s)) ==
            match MatchAt(s)
            case Some(m) => Append(Message(text, attachments + [AttachmentOf(m)]), Scan(s[m.length..]))
            case None => Append(Message(text + [s[0]], attachments), Scan(s[1..]))
  {
    var done, piece := Message(text, attachments), NextPiece(s);
    AppendAssociates(done, piece.message, Scan(s[piece.length..]));
    assert text + "" == text && attachments + [] == attachments;
  }

  function ParseMessageContent(content: string): Message
  {
    var scanned := Scan(content);
    Message(Trim(Collapse(scanned.text)), scanned.attachments)
  }

  /** The replacement callback pushes each attachment while the scan moves on. */
  method Parse(content: string) returns (message: Message)
    ensures message == ParseMessageContent(content)
  {
    var attachments: seq<Attachment> := [];
    var text := "";
    var rest := content;
    while rest != ""
      invariant Scan(content) == Append(Message(text, attachments), Scan(rest))
      decreases |rest|
    {
      ScanAdvances(text, attachments, rest);
      var found := MatchAt(rest);
      if found.Some? {
        attachments := attachments + [AttachmentOf(found.value)];
        rest := rest[found.value.length..];
      } else {
        text := text + [rest[0]];
        rest := rest[1..];
      }
    }
    assert Scan(content) == Message(text, attachments);
    return Message(Trim(Collapse(text)), attachments);
  }

  // --- No marker spans two lines -------------------------------------------------------------------

  lemma PrefixInLine(prefix: string, s: string, rest: string)
    requires '\n' !in prefix
    ensures prefix <= s + ("\n" + rest) <==> prefix <= s
  {
    var all := s + ("\n" + rest);
    if prefix <= all {
      assert forall i :: 0 <= i < |prefix| ==> all[i] == prefix[i] != '\n';
      assert all[|s|] == '\n';
      assert |prefix| <= |s|;
    }
  }

  lemma {:induction false} RunsInLine(s: string, rest: string)
    ensures MetaRun(s + ("\n" + rest)) == MetaRun(s) && UrlRun(s + ("\n" + rest)) == UrlRun(s)
  {
    if s != "" {
      assert (s + ("\n" + rest))[1..] == s[1..] + ("\n" + rest);
      RunsInLine(s[1..], rest);
    } else {
      assert (s + ("\n" + rest))[0] == '\n';
    }
  }

  lemma MetaInLine(s: string, rest: string)
    ensures MetaAt(s + ("\n" + rest)) == MetaAt(s)
  {
    PrefixInLine("image", s, rest);
    PrefixInLine("file|", s, rest);
    if "file|" <= s {
      assert (s + ("\n" + rest))[5..] == s[5..] + ("\n" + rest);
      RunsInLine(s[5..], rest);
    }
  }

  lemma UrlInLine(s: string, rest: string)
    ensures UrlAt(s + ("\n" + rest)) == UrlAt(s)
  {
    var all := s + ("\n" + rest);
    if Opens(s, ']', '(') {
      assert all[2..] == s[2..] + ("\n" + rest);
      RunsInLine(s[2..], rest);
      var n := UrlRun(s[2..]);
      assert all[2..2 + n] == s[2..2 + n];
    }
  }

  lemma MatchInLine(s: string, rest: string)
    requires s != ""
    ensures MatchAt(s + ("\n" + rest)) == MatchAt(s)
  {
    hide MetaAt, UrlAt;
    var all := s + ("\n" + rest);
    if Opens(s, '!', '[') {
      assert all[2..] == s[2..] + ("\n" + rest);
      MetaInLine(s[2..], rest);
      if MetaAt(s[2..]).Some? {
        var n := 2 + MetaAt(s[2..]).value;
        assert all[n..] == s[n..] + ("\n" + rest);
        UrlInLine(s[n..], rest);
        assert all[2..n] == s[2..n];
      }
    }
  }

  lemma NewlineIsPlain(rest: string)
    ensures NextPiece("\n" + rest) == Piece(1, Message("\n", []))
  {
  }

  /** Lines are scanned one by one. */
  lemma {:induction false} ScanLines(s: string, rest: string)
    ensures Scan(s + ("\n" + rest)) == Append(Scan(s), Append(Message("\n", []), Scan(rest)))
    decreases |s|
  {
    hide NextPiece;
    var all := s + ("\n" + rest);
    if s == "" {
      assert all == "\n" + rest && all[1..] == rest;
      NewlineIsPlain(rest);
      assert Append(Message("", []), Append(Message("\n", []), Scan(rest))) == Append(Message("\n", []), Scan(rest));
    } else {
      var piece := NextPiece(s);
      assert NextPiece(all) == piece by { SamePiece(s, rest); }
      var tail := s[piece.length..];
      assert all[piece.length..] == tail + ("\n" + rest);
      ScanLines(tail, rest);
      AppendAssociates(piece.message, Scan(tail), Append(Message("\n", []), Scan(rest)));
    }
  }

  lemma SamePiece(s: string, rest: string)
    requires s != ""
    ensures NextPiece(s + ("\n" + rest)) == NextPiece(s)
  {
    hide MatchAt, AttachmentOf;
    MatchInLine(s, rest);
  }

  // --- A printed marker is read back ---------------------------------------------------------------

  predicate GoodUrl(url: string)
  {
    url != "" && forall c :: c in url ==> UrlChar(c)
  }

  /** Images come back with their URL only. */
  function Expected(file: File): Attachment
  {
    if "image/" <= file.mimeType then Attachment(Image, file.url, "", 0)
    else Attachment(Pdf, file.url, file.name, file.size)
  }

  function ExpectedAll(files: seq<File>): (all: seq<Attachment>)
    ensures |all| == |files| && forall i :: 0 <= i < |files| ==> all[i] == Expected(files[i])
  {
    if files == [] then [] else [Expected(files[0])] + ExpectedAll(files[1..])
  }

  lemma {:induction false} MetaRunOf(s: string, rest: string)
    requires ']' !in s && '\n' !in s && rest != "" && rest[0] == ']'
    ensures MetaRun(s + rest) == |s|
  {
    if s != "" {
      assert (s + rest)[1..] == s[1..] + rest;
      MetaRunOf(s[1..], rest);
    }
  }

  lemma UrlAtOf(url: string)
    requires GoodUrl(url)
    ensures UrlAt(Link(url)) == Some(url)
  {
    var s := Link(url);
    assert s[2..] == url + ")";
    var n := UrlRun(url + ")");
    assert forall i :: 0 <= i < |url| ==> UrlChar((url + ")")[i]);
    assert (url + ")")[|url|] == ')';
    assert s[2..2 + |url|] == url;
  }

  lemma {:induction false} SplitFirst(part: string, rest: string)
    requires '|' !in part
    ensures Split(part + ("|" + rest)) == [part] + Split(rest)
  {
    var all := part + ("|" + rest);
    if part == "" {
      assert all == "|" + rest && all[1..] == rest;
    } else {
      assert all[1..] == part[1..] + ("|" + rest) && all[0] == part[0];
      SplitFirst(part[1..], rest);
      assert ([part[1..]] + Split(rest))[1..] == Split(rest);
      assert [part[0]] + part[1..] == part;
    }
  }

  lemma {:induction false} SplitLast(part: string)
    requires '|' !in part
    ensures Split(part) == [part]
  {
    if part != "" {
      SplitLast(part[1..]);
      assert [part[0]] + part[1..] == part;
    }
  }

  lemma SizeRoundTrip(size: nat)
    ensures ParseSize(Decimal(size)) == size
  {
    var digits := Decimal(size);
    assert forall c :: c in digits ==> IsDigit(c) && !IsSpace(c);
    assert digits[0] in digits && digits[|digits| - 1] in digits;
    assert Trim(digits) == digits;
    DecimalRoundTrip(size);
  }

  lemma EncodedParts(file: File)
    ensures var name := PercentEncoding.Encode(file.name);
            ']' !in name && '\n' !in name && '|' !in name &&
            ']' !in Decimal(file.size) && '\n' !in Decimal(file.size) && '|' !in Decimal(file.size)
  {
    PercentEncoding.EncodedIsSafe(file.name);
    assert !PercentEncoding.Safe(']') && !PercentEncoding.Safe('\n') && !PercentEncoding.Safe('|');
    assert !IsDigit(']') && !IsDigit('\n') && !IsDigit('|');
  }

  lemma MetaReadsBack(file: File, length: nat)
    ensures AttachmentOf(Match(Meta(file), file.url, length)) == Expected(file)
  {
    if IsImage(file) {
    } else {
      var name, size := PercentEncoding.Encode(file.name), Decimal(file.size);
      EncodedParts(file);
      assert Meta(file) == "file" + ("|" + (name + ("|" + size)));
      SplitFirst("file", name + ("|" + size));
      SplitFirst(name, size);
      SplitLast(size);
      assert Split(Meta(file)) == ["file", name, size];
      PercentEncoding.DecodeUndoesEncode(file.name);
      SizeRoundTrip(file.size);
    }
  }

  lemma Slices(first: string, second: string, third: string)
    ensures var all, n := first + (second + third), |first| + |second|;
            first <= all && all[|first|..] == second + third && all[|first|..n] == second && all[n..] == third
  {
  }

  lemma FileMetaAt(parts: string, rest: string)
    requires ']' !in parts && '\n' !in parts && rest != "" && rest[0] == ']'
    ensures MetaAt("file|" + (parts + rest)) == Some(5 + |parts|)
  {
    var s := "file|" + (parts + rest);
    Slices("file|", parts, rest);
    assert s[0] == 'f';
    assert !("image" <= s);
    MetaRunOf(parts, rest);
  }

  lemma ImageMetaAt(rest: string)
    ensures MetaAt("image" + rest) == Some(5)
  {
  }

  lemma MetaAtOf(file: File, rest: string)
    requires rest != "" && rest[0] == ']'
    ensures MetaAt(Meta(file) + rest) == Some(|Meta(file)|)
  {
    hide MetaAt, PercentEncoding.Encode, Decimal;
    if IsImage(file) {
      ImageMetaAt(rest);
    } else {
      var parts := PercentEncoding.Encode(file.name) + "|" + Decimal(file.size);
      EncodedParts(file);
      assert Meta(file) + rest == "file|" + (parts + rest);
      FileMetaAt(parts, rest);
    }
  }

  lemma MatchOf(meta: string, url: string)
    requires GoodUrl(url) && MetaAt(meta + Link(url)) == Some(|meta|)
    ensures MatchAt("![" + (meta + Link(url))) == Some(Match(meta, url, |meta| + |url| + 5))
  {
    hide MetaAt, UrlAt;
    var s, n := "![" + (meta + Link(url)), 2 + |meta|;
    assert Opens(s, '!', '[');
    assert s[2..] == meta + Link(url) by { Slices("![", meta, Link(url)); }
    assert s[n..] == Link(url) && s[2..n] == meta by { Slices("![", meta, Link(url)); }
    assert UrlAt(s[n..]) == Some(url) by { UrlAtOf(url); }
  }

  lemma MarkerMatches(file: File)
    requires GoodUrl(file.url)
    ensures MatchAt(Marker(file)) == Some(Match(Meta(file), file.url, |Marker(file)|))
  {
    hide MetaAt, MatchAt, GoodUrl;
    MetaAtOf(file, Link(file.url));
    MatchOf(Meta(file), file.url);
  }

  lemma ScanMarker(file: File)
    requires GoodUrl(file.url)
    ensures Scan(Marker(file)) == Message("", [Expected(file)])
  {
    var s := Marker(file);
    MarkerMatches(file);
    MetaReadsBack(file, |s|);
    assert s[|s|..] == "";
  }

  /** A file marker that was not printed here: an undecodable name is kept as written. */
  lemma ForeignMarker(name: string, size: string, url: string)
    requires forall c :: c in name || c in size ==> c != '|' && c != ']' && c != '\n'
    requires GoodUrl(url)
    ensures var decoded := PercentEncoding.Decode(name);
            Scan("![" + ("file|" + (name + ("|" + size)) + Link(url))) ==
            Message("", [Attachment(Pdf, url, if decoded.Some? then decoded.value else name, ParseSize(size))])
  {
    hide MatchAt, GoodUrl, UrlAt, MetaAt, UrlChar, ParseSize, Split;
    var parts := name + ("|" + size);
    var meta := "file|" + parts;
    var s := "![" + (meta + Link(url));
    FileMetaAt(parts, Link(url));
    assert meta + Link(url) == "file|" + (parts + Link(url));
    MatchOf(meta, url);
    ForeignParts(name, size, url, |s|);
    assert |s| == |meta| + |url| + 5;
    assert s[|s|..] == "";
  }

  lemma ForeignParts(name: string, size: string, url: string, length: nat)
    requires '|' !in name && '|' !in size
    ensures var decoded := PercentEncoding.Decode(name);
            AttachmentOf(Match("file|" + (name + ("|" + size)), url, length)) ==
            Attachment(Pdf, url, if decoded.Some? then decoded.value else name, ParseSize(size))
  {
    hide ParseSize, Split;
    var meta := "file|" + (name + ("|" + size));
    assert meta == "file" + ("|" + (name + ("|" + size)));
    assert meta[0] == 'f';
    SplitFirst("file", name + ("|" + size));
    SplitFirst(name, size);
    SplitLast(size);
    assert Split(meta) == ["file", name, size];
  }

  /** A size is read as a decimal number; anything else is 0. */
  lemma SizeIsDecimal(size: string)
    ensures (forall c :: c in size ==> '0' <= c <= '9') ==> ParseSize(size) == DecimalValue(size)
    ensures (exists c :: c in size && !IsSpace(c) && !('0' <= c <= '9')) ==> ParseSize(size) == 0
  {
    hide Trim, IsSpace;
    if forall c :: c in size ==> '0' <= c <= '9' {
      DigitsAreNoSpaces(size);
      NothingToTrim(size);
    }
    if c :| c in size && !IsSpace(c) && !('0' <= c <= '9') {
      var before, after := TrimDropsSpaces(size);
      assert c in Trim(size);
    }
  }

  lemma DigitsAreNoSpaces(s: string)
    requires forall c :: c in s ==> IsDigit(c)
    ensures Trimmed(s)
  {
    if s != "" {
      assert IsDigit(s[0]) && IsDigit(s[|s| - 1]);
    }
  }

  lemma JoinMarkers(files: seq<File>)
    requires |files| > 1
    ensures Join(Markers(files)) == Marker(files[0]) + ("\n" + Join(Markers(files[1..])))
  {
    assert Markers(files)[1..] == Markers(files[1..]);
  }

  lemma {:induction false} ScanMarkers(files: seq<File>)
    requires files != [] && forall f :: f in files ==> GoodUrl(f.url)
    ensures Scan(Join(Markers(files))) == Message(Newlines(|files| - 1), ExpectedAll(files))
  {
    hide Scan, Marker, Expected, GoodUrl;
    assert files[0] in files;
    ScanMarker(files[0]);
    if |files| == 1 {
      assert Markers(files) == [Marker(files[0])];
      assert Newlines(0) == "";
    } else {
      assert forall f :: f in files[1..] ==> f in files;
      ScanMarkers(files[1..]);
      JoinMarkers(files);
      ScanAfter(Marker(files[0]), Expected(files[0]), Join(Markers(files[1..])), |files| - 2, ExpectedAll(files[1..]));
    }
  }

  lemma ScanAfter(first: string, file: Attachment, rest: string, n: nat, files: seq<Attachment>)
    requires Scan(first) == Message("", [file]) && Scan(rest) == Message(Newlines(n), files)
    ensures Scan(first + ("\n" + rest)) == Message(Newlines(n + 1), [file] + files)
  {
    ScanLines(first, rest);
    AppendFiles(Message("", [file]), n, files);
    assert "" + Newlines(n + 1) == Newlines(n + 1);
  }

  lemma {:induction false} MarkersAreNotEmpty(files: seq<File>)
    ensures NonEmpty(Markers(files)) == Markers(files)
  {
    if files != [] {
      MarkersAreNotEmpty(files[1..]);
    }
  }

  lemma BuiltContent(text: string, files: seq<File>)
    ensures BuildMessageContent(text, files) ==
            if Trim(text) == "" then Join(Markers(files))
            else if files == [] then Trim(text)
            else Trim(text) + ("\n" + Join(Markers(files)))
  {
    var parts := [Trim(text)] + Markers(files);
    assert parts[1..] == Markers(files);
    MarkersAreNotEmpty(files);
    if Trim(text) == "" {
      assert [] + Markers(files) == Markers(files);
    } else {
      assert NonEmpty(parts) == parts;
    }
  }

  /** Attaching files to any text adds exactly those files, after whatever the text itself holds. */
  lemma FilesAreAppended(text: string, files: seq<File>)
    requires forall f :: f in files ==> GoodUrl(f.url)
    ensures var alone := ParseMessageContent(Trim(text));
            ParseMessageContent(BuildMessageContent(text, files)) ==
            Message(alone.text, alone.attachments + ExpectedAll(files))
  {
    hide BuildMessageContent, Trim, Join, Markers, GoodUrl, ParseMessageContent, Scan;
    BuiltContent(text, files);
    if files == [] {
      var alone := ParseMessageContent(Trim(text));
      assert alone.attachments + [] == alone.attachments;
      assert Join(Markers([])) == "" by { NoMarkers(); }
    } else {
      ScanMarkers(files);
      LinesAfterText(Trim(text), Join(Markers(files)), |files| - 1, ExpectedAll(files));
      assert [] + ExpectedAll(files) == ExpectedAll(files);
    }
  }

  lemma NoMarkers()
    ensures Join(Markers([])) == ""
  {
  }

  lemma LinesAfterText(s: string, rest: string, n: nat, files: seq<Attachment>)
    requires Scan(rest) == Message(Newlines(n), files)
    ensures ParseMessageContent(s + ("\n" + rest)) ==
            Message(ParseMessageContent(s).text, ParseMessageContent(s).attachments + files)
    ensures ParseMessageContent("") == Message("", []) && ParseMessageContent(rest) == Message("", files)
  {
    hide Collapse, NextPiece;
    ScanLines(s, rest);
    AppendFiles(Scan(s), n, files);
    CollapseDropsEnd(Scan(s).text, n + 1);
    CollapseNewlines(n);
    CollapseNewlines(0);
    assert Newlines(0) == "";
  }

  lemma AppendFiles(first: Message, n: nat, rest: seq<Attachment>)
    ensures Append(first, Append(Message("\n", []), Message(Newlines(n), rest))) ==
            Message(first.text + Newlines(n + 1), first.attachments + rest)
  {
    assert "\n" + Newlines(n) == Newlines(n + 1);
    assert [] + rest == rest;
  }

  // --- What counts as a marker ---------------------------------------------------------------------

  predicate IsMeta(meta: string)
  {
    meta == "image" || ("file|" <= meta && forall c :: c in meta ==> c != ']' && c != '\n')
  }

  lemma {:induction false} MetaRunIff(s: string, n: nat)
    requires n < |s| && s[n] == ']'
    ensures MetaRun(s) == n <==> forall i :: 0 <= i < n ==> s[i] != ']' && s[i] != '\n'
  {
    if n > 0 && s[0] != ']' && s[0] != '\n' {
      MetaRunIff(s[1..], n - 1);
      assert forall i :: 0 <= i < n - 1 ==> s[1..][i] == s[i + 1];
      assert forall i :: 1 <= i < n ==> s[i] == s[1..][i - 1];
    }
  }

  lemma MetaAtIff(s: string, n: nat)
    requires n < |s| && s[n] == ']'
    ensures MetaAt(s) == Some(n) <==> IsMeta(s[..n])
  {
    var meta := s[..n];
    assert meta <= s;
    if "image" <= s {
      assert s[0] == 'i' && n >= 5;
      assert n == 5 ==> meta == "image";
    } else if "file|" <= s {
      assert s[0] == 'f' && n >= 5;
      MetaRunIff(s[5..], n - 5);
      assert forall i :: 0 <= i < n - 5 ==> s[5..][i] == meta[i + 5];
      assert forall i :: 0 <= i < 5 ==> meta[i] == "file|"[i];
      if MetaRun(s[5..]) == n - 5 {
        assert forall i :: 5 <= i < n ==> meta[i] == s[5..][i - 5];
        assert forall i :: 0 <= i < n ==> meta[i] != ']' && meta[i] != '\n';
      } else {
        var i :| 0 <= i < n - 5 && (s[5..][i] == ']' || s[5..][i] == '\n');
        assert meta[i + 5] in meta;
      }
    }
  }

  lemma UrlAtIff(s: string, url: string)
    ensures UrlAt(s) == Some(url) <==> GoodUrl(url) && Link(url) <= s
  {
    hide IsSpace;
    var n := |url|;
    if GoodUrl(url) && Link(url) <= s {
      assert s[..n + 3] == Link(url);
      assert forall i :: 0 <= i < n ==> s[2..][i] == url[i] && url[i] in url;
      assert s[2..][n] == ')';
      assert s[2..2 + n] == url;
    }
    if UrlAt(s) == Some(url) {
      assert forall i :: 0 <= i < n ==> url[i] == s[2..][i];
      assert s[..n + 3] == Link(url);
    }
  }

  /** A marker is `![image](url)` or `![file|...](url)`, and nothing else. */
  lemma MatchIff(s: string, m: Match)
    ensures MatchAt(s) == Some(m) <==>
            IsMeta(m.meta) && GoodUrl(m.url) && m.length == |m.meta| + |m.url| + 5 &&
            "![" + (m.meta + Link(m.url)) <= s
  {
    hide MetaAt, UrlAt, GoodUrl, IsMeta;
    var whole := "![" + (m.meta + Link(m.url));
    var n := 2 + |m.meta|;
    if MatchAt(s) == Some(m) {
      UrlAtIff(s[n..], m.url);
      assert s[n..][0] == ']';
      MetaAtIff(s[2..], |m.meta|);
      assert s[2..][..|m.meta|] == m.meta;
      assert s == s[..2] + (m.meta + s[n..]);
      assert whole <= s;
    }
    if IsMeta(m.meta) && GoodUrl(m.url) && m.length == |m.meta| + |m.url| + 5 && whole <= s {
      Slices("![", m.meta, Link(m.url));
      assert s[..|whole|] == whole;
      assert s[2..n] == m.meta == s[2..][..|m.meta|];
      assert s[n..][..|Link(m.url)|] == Link(m.url);
      assert Link(m.url)[0] == ']';
      assert s[2..][|m.meta|] == ']';
      UrlAtIff(s[n..], m.url);
      MetaAtIff(s[2..], |m.meta|);
      assert Opens(s, '!', '[');
    }
  }

  // --- When parsing undoes printing ----------------------------------------------------------------

  ghost predicate HasMarker(s: string)
  {
    exists i :: 0 <= i <= |s| && MatchAt(s[i..]).Some?
  }

  lemma {:induction false} ScanFindsMarkers(s: string)
    ensures HasMarker(s) <==> Scan(s).attachments != []
    ensures !HasMarker(s) ==> Scan(s) == Message(s, [])
  {
    hide MatchAt, AttachmentOf;
    if s == "" {
      assert MatchAt(s[0..]).None?;
    } else {
      ScanFindsMarkers(s[1..]);
      assert s[0..] == s;
      assert forall i :: 1 <= i <= |s| ==> s[i..] == s[1..][i - 1..];
      assert forall i :: 0 <= i <= |s[1..]| ==> s[1..][i..] == s[i + 1..];
      assert [s[0]] + s[1..] == s;
    }
  }

  /** Text without markers or three newlines in a row is the text that parses to itself. */
  lemma PlainIff(text: string)
    requires Trimmed(text)
    ensures ParseMessageContent(text) == Message(text, []) <==> !HasMarker(text) && !HasTriple(text)
  {
    hide Scan, HasMarker, HasTriple, Collapse;
    ScanFindsMarkers(text);
    CollapseChangesIff(text);
    if !HasMarker(text) && !HasTriple(text) {
      assert Trim(text) == text;
    }
  }

  lemma {:induction false} ScannedUrlsAreGood(s: string)
    ensures forall a :: a in Scan(s).attachments ==> GoodUrl(a.url)
    decreases |s|
  {
    if s != "" {
      ScannedUrlsAreGood(s[NextPiece(s).length..]);
      if MatchAt(s).Some? {
        MatchedUrlIsGood(s);
      }
    }
  }

  lemma MatchedUrlIsGood(s: string)
    requires MatchAt(s).Some?
    ensures GoodUrl(MatchAt(s).value.url)
  {
    var rest := s[2 + MetaAt(s[2..]).value..];
    var url := UrlAt(rest).value;
    var n := UrlRun(rest[2..]);
    assert forall i :: 0 <= i < n ==> url[i] == rest[2..][i];
  }

  /**
   * Parsing gives back the trimmed text and the files, an image by its URL alone and any other file with its
   * name and size, exactly when the trimmed text has no marker and no three newlines in a row, and every URL
   * is non-empty without `)` or white space.
   */
  lemma ParseUndoesBuildIff(text: string, files: seq<File>)
    ensures var parsed := ParseMessageContent(BuildMessageContent(text, files));
            (parsed.text == Trim(text) && |parsed.attachments| == |files| &&
             forall i :: 0 <= i < |files| ==>
               parsed.attachments[i] ==
               if "image/" <= files[i].mimeType then Attachment(Image, files[i].url, "", 0)
               else Attachment(Pdf, files[i].url, files[i].name, files[i].size)) <==>
            !HasMarker(Trim(text)) && !HasTriple(Trim(text)) && forall f :: f in files ==> GoodUrl(f.url)
  {
    hide Scan, BuildMessageContent, Trim, Trimmed, HasMarker, HasTriple, Collapse, ExpectedAll;
    var parsed := ParseMessageContent(BuildMessageContent(text, files));
    TrimIsTrimmed(text);
    PlainIff(Trim(text));
    if forall f :: f in files ==> GoodUrl(f.url) {
      FilesAreAppended(text, files);
    } else {
      var i :| 0 <= i < |files| && !GoodUrl(files[i].url);
      assert ExpectedAll(files)[i].url == files[i].url;
      ScannedUrlsAreGood(BuildMessageContent(text, files));
    }
    assert parsed == Message(Trim(text), ExpectedAll(files)) <==>
           parsed.text == Trim(text) && |parsed.attachments| == |files| &&
           forall i :: 0 <= i < |files| ==> parsed.attachments[i] == Expected(files[i]);
  }
}
