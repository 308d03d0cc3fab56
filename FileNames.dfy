/** The file-name handling that process_file_metadata relies on: POSIX
    `os.path.basename` and `os.path.splitext`, and the extension derivation
    `ext.lower().lstrip('.')`. */
module FileNames {

  /** `s.rfind(c)`: the index of the last `c` in `s`, or -1 when there is none. */
  function RFind(s: string, c: char): (r: int)
    ensures -1 <= r < |s|
    ensures r >= 0 ==> s[r] == c
    ensures forall k :: r < k < |s| ==> s[k] != c
  {
    if s == [] then -1
    else if s[|s| - 1] == c then |s| - 1
    else RFind(s[..|s| - 1], c)
  }

  /** `os.path.basename`: what follows the last '/'. */
  function Basename(p: string): (r: string)
    ensures '/' !in r
    ensures |r| <= |p| && r == p[|p| - |r|..]
    ensures |r| == |p| || p[|p| - |r| - 1] == '/'
  {
    p[RFind(p, '/') + 1..]
  }

  /** `os.path.splitext`: the extension starts at the last '.' of the last
      path component, provided something other than a '.' precedes it in
      that component; otherwise it is empty. */
  function SplitExt(p: string): (r: (string, string))
    ensures r.0 + r.1 == p
    ensures r.1 != "" ==> r.1[0] == '.' && '.' !in r.1[1..] && '/' !in r.1
  {
    var sepIndex := RFind(p, '/');
    var dotIndex := RFind(p, '.');
    if dotIndex > sepIndex && exists k :: sepIndex < k < dotIndex && p[k] != '.' then
      (p[..dotIndex], p[dotIndex..])
    else
      (p, "")
  }

  function LowerChar(c: char): char {
    if 'A' <= c <= 'Z' then (c as int + 32) as char else c
  }

  /** `s.lower()`, on ASCII letters. */
  function Lower(s: string): (r: string)
    ensures |r| == |s| && IsLower(r)
    ensures forall i :: 0 <= i < |s| && !('A' <= s[i] <= 'Z') ==> r[i] == s[i]
    ensures forall i :: 0 <= i < |s| && 'A' <= s[i] <= 'Z' ==> r[i] as int == s[i] as int + 32
  {
    seq(|s|, i requires 0 <= i < |s| => LowerChar(s[i]))
  }

  predicate IsLower(s: string) {
    forall i :: 0 <= i < |s| ==> !('A' <= s[i] <= 'Z')
  }

  /** `s.lstrip(c)`: removes every leading `c`. */
  function LStrip(s: string, c: char): (r: string)
    ensures |r| <= |s| && r == s[|s| - |r|..]
    ensures forall k :: 0 <= k < |s| - |r| ==> s[k] == c
    ensures r != "" ==> r[0] != c
  {
    if s != [] && s[0] == c then LStrip(s[1..], c) else s
  }

  /** `file_extension`: the splitext extension, lower-cased, with its leading
      dots stripped. Since splitext puts only one '.' into the extension,
      exactly that dot goes, and the result holds no '.' at all. */
  function FileExtension(filename: string): (r: string)
    ensures '.' !in r
    ensures IsLower(r)
    ensures SplitExt(filename).1 == "" ==> r == ""
    ensures SplitExt(filename).1 != "" ==> r == Lower(SplitExt(filename).1[1..])
  {
    var ext := SplitExt(filename).1;
    if ext == "" then LStrip(Lower(ext), '.')
    else
      LowerExtension(ext);
      StripOneDot(Lower(ext));
      LStrip(Lower(ext), '.')
  }

  /** Lower-casing an extension keeps its single leading '.' and puts no
      other '.' and no upper-case letter into it. */
  lemma LowerExtension(ext: string)
    requires ext != "" && ext[0] == '.' && '.' !in ext[1..]
    ensures Lower(ext) == ['.'] + Lower(ext[1..])
    ensures '.' !in Lower(ext[1..]) && IsLower(Lower(ext[1..]))
  {
    var tail := Lower(ext[1..]);
    forall i | 0 <= i < |tail| ensures tail[i] != '.' {
      assert ext[1..][i] != '.';
    }
  }

  /** `lstrip` of a string with exactly one leading '.' drops that dot. */
  lemma StripOneDot(s: string)
    requires s != "" && s[0] == '.' && '.' !in s[1..]
    ensures LStrip(s, '.') == s[1..]
  {
    assert s[1..] != "" ==> s[1..][0] != '.';
  }

  /** The extension is empty exactly when the last path component has no '.',
      or has only '.'s before its last '.' (as in ".bashrc" or "..."). */
  lemma ExtensionEmptyIff(p: string)
    ensures var b := Basename(p);
      SplitExt(p).1 == "" <==>
        ('.' !in b || forall k :: 0 <= k < RFind(b, '.') ==> b[k] == '.')
  {
    var b := Basename(p);
    var sepIndex := RFind(p, '/');
    var dotIndex := RFind(p, '.');
    var off := sepIndex + 1;
    assert b == p[off..];
    if '.' in b {
      var j :| 0 <= j < |b| && b[j] == '.';
      assert p[off + j] == '.';
      assert dotIndex > sepIndex;
      BasenameRFind(p, off, '.');
      assert RFind(b, '.') == dotIndex - off;
      if SplitExt(p).1 == "" {
        forall k | 0 <= k < RFind(b, '.') ensures b[k] == '.' {
          assert p[off + k] == b[k];
        }
      } else {
        var k :| sepIndex < k < dotIndex && p[k] != '.';
        assert b[k - off] != '.';
      }
    }
  }

  /** RFind in a suffix `p[off..]` that contains `c` is RFind in `p`, shifted. */
  lemma BasenameRFind(p: string, off: nat, c: char)
    requires off <= |p| && c in p[off..]
    ensures RFind(p[off..], c) == RFind(p, c) - off
  {
    var r := RFind(p, c);
    var j :| 0 <= j < |p[off..]| && p[off..][j] == c;
    assert p[off + j] == c;
    var rb := RFind(p[off..], c);
    assert rb >= 0 ==> p[off + rb] == c;
  }

  /** A file name whose last component has no '.' (the name of a scratch
      file made by NamedTemporaryFile without a suffix, say) has an empty
      extension. */
  lemma NoDotNoExtension(p: string)
    requires '.' !in Basename(p)
    ensures FileExtension(p) == ""
  {
    ExtensionEmptyIff(p);
  }
}
