/** The client's display helpers: the unit of a byte count, the relative age of a date, the icon and the
    colour badge of a MIME type, the border class of a note colour, and text truncation. */
module Utils {
  import opened Schema
  import opened Text
  import opened Format
  import MemStore

  /** The units formatBytes knows; a count of 1024^4 bytes or more runs past them. */
  const ByteUnits: seq<string> := ["B", "KB", "MB", "GB"]

  /** formatBytes, up to the decimal rendering of the scaled count. */
  function FormatFileBytes(bytes: int): ByteLabel {
    FormatBytes(bytes, ByteUnits)
  }

  /** Zero is "0 B"; a positive count is shown in B, KB, MB or GB by the power of 1024 it reaches, and from
      1024^4 bytes on there is no unit (the source prints "undefined"). */
  lemma FormatFileBytesUnits(bytes: int)
    ensures bytes == 0 <==> FormatFileBytes(bytes) == ZeroBytes
    ensures 0 < bytes < 1024 ==> FormatFileBytes(bytes) == Scaled(bytes, 0, Some("B"))
    ensures 1024 <= bytes < 1048576 ==> FormatFileBytes(bytes) == Scaled(bytes, 1, Some("KB"))
    ensures 1048576 <= bytes < 1073741824 ==> FormatFileBytes(bytes) == Scaled(bytes, 2, Some("MB"))
    ensures 1073741824 <= bytes < 1099511627776 ==> FormatFileBytes(bytes) == Scaled(bytes, 3, Some("GB"))
    ensures bytes >= 1099511627776 ==> FormatFileBytes(bytes).Scaled? && FormatFileBytes(bytes).unit == None
  {
    FormatBytesSpec(bytes, ByteUnits);
    assert Pow1024(1) == 1024 && Pow1024(2) == 1048576 && Pow1024(3) == 1073741824;
    assert Pow1024(4) == 1099511627776;
    if bytes > 0 {
      var i := FormatFileBytes(bytes).unitIndex;
      if bytes < 1024 {
        UnitIndexUnique(bytes, 0);
      } else if bytes < 1048576 {
        UnitIndexUnique(bytes, 1);
      } else if bytes < 1073741824 {
        UnitIndexUnique(bytes, 2);
      } else if bytes < 1099511627776 {
        UnitIndexUnique(bytes, 3);
      }
    }
  }

  /** formatRelativeTime: under a minute (or in the future) "Just now", then whole minutes, whole hours and
      whole days, each rounded down, and from a week on the date itself. */
  function RelativeAge(date: int, now: int): (t: TimeLabel)
    ensures t.JustNow? <==> now - date < MinuteMs
    ensures t.MinutesAgo? <==> MinuteMs <= now - date < HourMs
    ensures t.MinutesAgo? ==> 1 <= t.minutes < 60 && t.minutes * MinuteMs <= now - date < (t.minutes + 1) * MinuteMs
    ensures t.HoursAgo? <==> HourMs <= now - date < DayMs
    ensures t.HoursAgo? ==> 1 <= t.hours < 24 && t.hours * HourMs <= now - date < (t.hours + 1) * HourMs
    ensures t.DaysAgo? <==> DayMs <= now - date < 7 * DayMs
    ensures t.DaysAgo? ==> 1 <= t.days < 7 && t.days * DayMs <= now - date < (t.days + 1) * DayMs
    ensures t.LocaleDate? <==> 7 * DayMs <= now - date
    ensures t.LocaleDate? ==> t.date == date
  {
    var diff := now - date;
    var mins, hours, days := diff / MinuteMs, diff / HourMs, diff / DayMs;
    if mins < 1 then JustNow
    else if mins < 60 then MinutesAgo(mins)
    else if hours < 24 then HoursAgo(hours)
    else if days < 7 then DaysAgo(days)
    else LocaleDate(date)
  }

  /** From a minute to a week old, the client's label is the one the server's recent-files listing gives. */
  lemma RelativeAgeAgreesWithServer(date: int, now: int)
    requires MinuteMs <= now - date < 7 * DayMs
    ensures RelativeAge(date, now) == MemStore.RelativeTime(date, now)
  {
    var t, u := RelativeAge(date, now), MemStore.RelativeTime(date, now);
    if t.MinutesAgo? {
      DivFloor(now - date, MinuteMs, t.minutes);
      DivFloor(now - date, MinuteMs, u.minutes);
    } else if t.HoursAgo? {
      DivFloor(now - date, HourMs, t.hours);
      DivFloor(now - date, HourMs, u.hours);
    } else {
      DivFloor(now - date, DayMs, t.days);
      DivFloor(now - date, DayMs, u.days);
    }
  }

  /** A count k with k * d <= n < (k + 1) * d is n / d. */
  lemma DivFloor(n: int, d: int, k: int)
    requires d > 0 && k * d <= n < (k + 1) * d
    ensures k == n / d
  {
    var q := n / d;
    if k < q {
      MulMonotone(d, k + 1, q);
    } else if q < k {
      MulMonotone(d, q + 1, k);
    }
  }

  const PdfType := "application/pdf"
  const FolderType := "application/folder"

  /** The icons getFileIcon picks from. */
  datatype Glyph = ImageGlyph | PageGlyph | VideoGlyph | AudioGlyph | DocumentGlyph | SpreadsheetGlyph
    | PresentationGlyph | FolderGlyph

  /** The emoji of each icon; the page icon is shown for PDFs and for every type nothing else matches. */
  function Emoji(g: Glyph): string {
    match g
    case ImageGlyph => "\U{1F5BC}\U{FE0F}"
    case PageGlyph => "\U{1F4C4}"
    case VideoGlyph => "\U{1F3A5}"
    case AudioGlyph => "\U{1F3B5}"
    case DocumentGlyph => "\U{1F4DD}"
    case SpreadsheetGlyph => "\U{1F4CA}"
    case PresentationGlyph => "\U{1F4C8}"
    case FolderGlyph => "\U{1F4C1}"
  }

  /** Different icons have different emoji. */
  lemma EmojiInjective(g: Glyph, h: Glyph)
    ensures Emoji(g) == Emoji(h) ==> g == h
  {
    if g != h && g != ImageGlyph && h != ImageGlyph {
      assert Emoji(g)[0] != Emoji(h)[0];
    }
  }

  /** The first test the MIME type passes picks the icon. */
  function FileGlyph(mimeType: string): Glyph {
    if StartsWith(mimeType, "image/") then ImageGlyph
    else if mimeType == PdfType then PageGlyph
    else if StartsWith(mimeType, "video/") then VideoGlyph
    else if StartsWith(mimeType, "audio/") then AudioGlyph
    else if Contains(mimeType, "document") then DocumentGlyph
    else if Contains(mimeType, "spreadsheet") then SpreadsheetGlyph
    else if Contains(mimeType, "presentation") then PresentationGlyph
    else if mimeType == FolderType then FolderGlyph
    else PageGlyph
  }

  /** getFileIcon. */
  function FileIcon(mimeType: string): string {
    Emoji(FileGlyph(mimeType))
  }

  /** The colour badges getFileTypeColor picks from. */
  datatype Badge = BlueBadge | RedBadge | PurpleBadge | GreenBadge | OrangeBadge | YellowBadge | GrayBadge

  function BadgeClass(b: Badge): string {
    match b
    case BlueBadge => "bg-blue-500/20 text-blue-400"
    case RedBadge => "bg-red-500/20 text-red-400"
    case PurpleBadge => "bg-purple-500/20 text-purple-400"
    case GreenBadge => "bg-green-500/20 text-green-400"
    case OrangeBadge => "bg-orange-500/20 text-orange-400"
    case YellowBadge => "bg-yellow-500/20 text-yellow-400"
    case GrayBadge => "bg-gray-500/20 text-gray-400"
  }

  /** The same tests as for the icon, in the same order, without the spreadsheet and presentation ones. */
  function FileBadge(mimeType: string): Badge {
    if StartsWith(mimeType, "image/") then BlueBadge
    else if mimeType == PdfType then RedBadge
    else if StartsWith(mimeType, "video/") then PurpleBadge
    else if StartsWith(mimeType, "audio/") then GreenBadge
    else if Contains(mimeType, "document") then OrangeBadge
    else if mimeType == FolderType then YellowBadge
    else GrayBadge
  }

  /** getFileTypeColor: the first rule that matches picks the class; the folder colour is given to the
      folder type and nothing else. */
  function FileTypeColor(mimeType: string): (r: string)
    ensures StartsWith(mimeType, "image/") ==> r == "bg-blue-500/20 text-blue-400"
    ensures mimeType == PdfType ==> r == "bg-red-500/20 text-red-400"
    ensures !StartsWith(mimeType, "image/") && StartsWith(mimeType, "video/") ==> r == "bg-purple-500/20 text-purple-400"
    ensures !StartsWith(mimeType, "image/") && !StartsWith(mimeType, "video/") && StartsWith(mimeType, "audio/") ==>
      r == "bg-green-500/20 text-green-400"
    ensures (!StartsWith(mimeType, "image/") && !StartsWith(mimeType, "video/") && !StartsWith(mimeType, "audio/") &&
             mimeType != PdfType && Contains(mimeType, "document")) ==> r == "bg-orange-500/20 text-orange-400"
    ensures r == "bg-yellow-500/20 text-yellow-400" <==> mimeType == FolderType
    ensures (!StartsWith(mimeType, "image/") && !StartsWith(mimeType, "video/") && !StartsWith(mimeType, "audio/") &&
             mimeType != PdfType && !Contains(mimeType, "document") && mimeType != FolderType) ==>
      r == "bg-gray-500/20 text-gray-400"
  {
    PdfTypeReached(PdfType);
    FolderOnlyForFolderType(mimeType);
    BadgeClassInjective(FileBadge(mimeType), YellowBadge);
    BadgeClass(FileBadge(mimeType))
  }

  /** The badge a class string names, read from the first letters of its colour. */
  function ClassBadge(cls: string): Badge
    requires |cls| > 5
  {
    if cls[3] == 'b' then BlueBadge
    else if cls[3] == 'r' then RedBadge
    else if cls[3] == 'p' then PurpleBadge
    else if cls[3] == 'o' then OrangeBadge
    else if cls[3] == 'y' then YellowBadge
    else if cls[5] == 'e' then GreenBadge
    else GrayBadge
  }

  /** Every class string names its own badge back. */
  lemma ClassNamesBadge(b: Badge)
    ensures |BadgeClass(b)| > 5 && ClassBadge(BadgeClass(b)) == b
  {
    var cls := BadgeClass(b);
    match b
    case BlueBadge => assert cls[3] == 'b';
    case RedBadge => assert cls[3] == 'r';
    case PurpleBadge => assert cls[3] == 'p';
    case GreenBadge => assert cls[3] == 'g' && cls[5] == 'e';
    case OrangeBadge => assert cls[3] == 'o';
    case YellowBadge => assert cls[3] == 'y';
    case GrayBadge => assert cls[3] == 'g' && cls[5] == 'a';
  }

  /** Different badges have different classes, so a class names its badge. */
  lemma BadgeClassInjective(a: Badge, b: Badge)
    ensures BadgeClass(a) == BadgeClass(b) <==> a == b
  {
    ClassNamesBadge(a);
    ClassNamesBadge(b);
  }

  /** A string that lacks one of the characters of sub does not contain sub. */
  lemma {:induction false} MissingCharNotContained(s: string, sub: string, c: char)
    requires c in sub && c !in s
    ensures !Contains(s, sub)
  {
    if s != [] {
      MissingCharNotContained(s[1..], sub, c);
    }
  }

  /** A string does not start with a prefix it differs from at some position. */
  lemma CharDiffers(s: string, p: string, i: nat)
    requires i < |s| && i < |p| && s[i] != p[i]
    ensures !StartsWith(s, p)
  {
    if |p| <= |s| {
      assert s[..|p|][i] == s[i];
    }
  }

  /** The PDF type passes none of the prefix tests. */
  lemma PdfTypeReached(m: string)
    requires m == PdfType
    ensures !StartsWith(m, "image/") && !StartsWith(m, "video/") && !StartsWith(m, "audio/")
  {
    CharDiffers(m, "image/", 0);
    CharDiffers(m, "video/", 0);
    CharDiffers(m, "audio/", 1);
  }

  /** The folder type passes none of the tests before its own, in either chain. */
  lemma FolderTypeReached(m: string)
    requires m == FolderType
    ensures !StartsWith(m, "image/") && !StartsWith(m, "video/") && !StartsWith(m, "audio/") && m != PdfType
    ensures !Contains(m, "document") && !Contains(m, "spreadsheet") && !Contains(m, "presentation")
  {
    assert m[0] == 'a' && m[12] == 'f' && PdfType[12] == 'p';
    CharDiffers(m, "image/", 0);
    CharDiffers(m, "video/", 0);
    CharDiffers(m, "audio/", 1);
    assert 'm' !in m && 's' !in m;
    MissingCharNotContained(m, "document", 'm');
    MissingCharNotContained(m, "spreadsheet", 's');
    MissingCharNotContained(m, "presentation", 's');
  }

  /** The folder icon and the folder badge are given to exactly the folder type. */
  lemma FolderOnlyForFolderType(mimeType: string)
    ensures FileGlyph(mimeType) == FolderGlyph <==> mimeType == FolderType
    ensures FileBadge(mimeType) == YellowBadge <==> mimeType == FolderType
  {
    if mimeType == FolderType {
      FolderTypeReached(mimeType);
    }
  }

  /** The badge and the icon tell the same story: the image, video, audio, document and folder badges
      each come with the matching icon and with no other, a PDF's red badge with the page icon, and the
      grey badge with the page, spreadsheet or presentation icon. */
  lemma IconAgreesWithBadge(mimeType: string)
    ensures FileBadge(mimeType) == BlueBadge <==> FileGlyph(mimeType) == ImageGlyph
    ensures FileBadge(mimeType) == PurpleBadge <==> FileGlyph(mimeType) == VideoGlyph
    ensures FileBadge(mimeType) == GreenBadge <==> FileGlyph(mimeType) == AudioGlyph
    ensures FileBadge(mimeType) == OrangeBadge <==> FileGlyph(mimeType) == DocumentGlyph
    ensures FileBadge(mimeType) == YellowBadge <==> FileGlyph(mimeType) == FolderGlyph
    ensures FileBadge(mimeType) == RedBadge ==> FileGlyph(mimeType) == PageGlyph
    ensures FileBadge(mimeType) == GrayBadge ==> FileGlyph(mimeType) in {PageGlyph, SpreadsheetGlyph, PresentationGlyph}
  {
    FolderOnlyForFolderType(mimeType);
  }

  /** A PDF shows the same page icon as a type no test recognises, such as the empty one, while its
      badge is red rather than the grey of the unrecognised type. */
  lemma PdfSharesFallbackIcon(m: string)
    requires m == PdfType
    ensures FileIcon(m) == FileIcon("") && FileGlyph("") == PageGlyph
    ensures FileBadge(m) == RedBadge && FileBadge("") == GrayBadge
  {
    CharDiffers(m, "image/", 0);
    ContainedInEmpty("document");
    ContainedInEmpty("spreadsheet");
    ContainedInEmpty("presentation");
  }

  /** The border class of each note colour. */
  const NoteBorders: map<string, string> := map[
    "default" := "border-slate-700",
    "red" := "border-red-500/30",
    "blue" := "border-blue-500/30",
    "green" := "border-emerald-500/30",
    "yellow" := "border-amber-500/30",
    "purple" := "border-purple-500/30"
  ]

  /** getNoteColorClass: the colour's own border class, or the default one for a colour not in the map. */
  function NoteColorClass(color: string): (r: string)
    ensures r in NoteBorders.Values
  {
    if color in NoteBorders then NoteBorders[color] else NoteBorders["default"]
  }

  /** Every colour has a border class of its own: the default class comes back exactly for "default" and
      for colours the map does not know, and two known colours never share a class. */
  lemma NoteColorClassDistinct(c: string, d: string)
    ensures NoteColorClass(c) == "border-slate-700" <==> c == "default" || c !in NoteBorders
    ensures c in NoteBorders && d in NoteBorders && c != d ==> NoteColorClass(c) != NoteColorClass(d)
  {
    var borders := ["border-slate-700", "border-red-500/30", "border-blue-500/30", "border-emerald-500/30",
      "border-amber-500/30", "border-purple-500/30"];
    assert forall i :: 1 <= i < 6 ==> borders[i][7] != 's';
    assert borders[1][7] == 'r' && borders[2][7] == 'b' && borders[3][7] == 'e';
    assert borders[4][7] == 'a' && borders[5][7] == 'p';
  }

  /** Where String.prototype.substring(0, n) cuts: a negative n counts as 0. */
  function CutAt(n: int): nat {
    if n < 0 then 0 else n
  }

  /** truncateText: text longer than maxLength is cut to its first maxLength characters (none when maxLength
      is negative) and "..." appended. */
  function TruncateText(text: string, maxLength: int): (r: string)
    ensures |text| <= maxLength ==> r == text
    ensures |text| > maxLength ==> |r| == CutAt(maxLength) + 3 && r[..CutAt(maxLength)] == text[..CutAt(maxLength)]
    ensures |text| > maxLength ==> r[CutAt(maxLength)..] == "..."
  {
    if |text| <= maxLength then text else text[..CutAt(maxLength)] + "..."
  }

  /** Truncating twice with the same length is truncating once. */
  lemma TruncateIdempotent(text: string, maxLength: int)
    ensures TruncateText(TruncateText(text, maxLength), maxLength) == TruncateText(text, maxLength)
  {
    var r := TruncateText(text, maxLength);
    if |text| > maxLength {
      var n := CutAt(maxLength);
      assert r[..n] == text[..n];
      assert r == text[..n] + "...";
    }
  }
}
