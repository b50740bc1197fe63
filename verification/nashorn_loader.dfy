/**
 The decisions of Nashorn's base class loader (`NashornLoader`): which
 package lookups are checked against the security manager, which
 permissions generated script classes receive, and how a class path is
 turned into `file:` URLs.

 The security manager and the file system are oracles: the manager is an
 optional predicate over package names (`true` when it grants access), and
 a path component's canonical path, absolute path and "is a regular file"
 answer are functions of the component.
 */
module NashornLoader {

  import opened Wrappers
  import opened Strings

  const ObjectsPkg: string := "org.openjdk.nashorn.internal.objects"
  const RuntimePkg: string := "org.openjdk.nashorn.internal.runtime"
  const RuntimeArraysPkg: string := "org.openjdk.nashorn.internal.runtime.arrays"
  const RuntimeLinkerPkg: string := "org.openjdk.nashorn.internal.runtime.linker"
  const ScriptsPkg: string := "org.openjdk.nashorn.internal.scripts"

  /** The implementation packages generated code may always reach. */
  const ExemptPackages: set<string> := {RuntimePkg, RuntimeArraysPkg, RuntimeLinkerPkg, ObjectsPkg, ScriptsPkg}

  // ---------------------------------------------------------------------
  // checkPackageAccess
  // ---------------------------------------------------------------------

  /** What a package-access check did. */
  datatype PackageCheck =
    | Unchecked                             // no dot in the name, or no security manager
    | Exempted(pkg: string)                 // one of the five implementation packages
    | Delegated(pkg: string, granted: bool) // asked the security manager

  /** The check lets the lookup proceed (a refusal is a `SecurityException`). */
  predicate Permits(r: PackageCheck)
  {
    !(r.Delegated? && !r.granted)
  }

  /**
   `checkPackageAccess(name)`: the package is the text before the last dot;
   without a dot or without a security manager nothing is checked; the five
   implementation packages pass; every other package is the manager's call.
   */
  function CheckPackageAccess(name: string, securityManager: Option<string -> bool>): (r: PackageCheck)
    ensures r.Unchecked? <==> '.' !in name || securityManager.None?
    ensures !r.Unchecked? ==> IsPackageOf(r.pkg, name)
    ensures r.Exempted? <==> !r.Unchecked? && r.pkg in ExemptPackages
    ensures r.Delegated? ==> r.granted == securityManager.value(r.pkg)
  {
    match PackageName(name)
    case None => Unchecked
    case Some(pkg) =>
      if securityManager.None? then Unchecked
      else if pkg in ExemptPackages then Exempted(pkg)
      else Delegated(pkg, securityManager.value(pkg))
  }

  /**
   The check refuses exactly when a security manager is installed, the name
   lies in a package outside the five, and the manager refuses that package.
   */
  lemma CheckRefusesIff(name: string, securityManager: Option<string -> bool>)
    ensures !Permits(CheckPackageAccess(name, securityManager)) <==>
      securityManager.Some? &&
      exists pkg :: IsPackageOf(pkg, name) && pkg !in ExemptPackages && !securityManager.value(pkg)
  {
  }

  /** A class in one of the five implementation packages is never refused, whatever the manager says. */
  lemma ExemptPackagesAlwaysPermitted(pkg: string, simpleName: string, securityManager: Option<string -> bool>)
    requires pkg in ExemptPackages && '.' !in simpleName
    ensures Permits(CheckPackageAccess(pkg + "." + simpleName, securityManager))
  {
    var name := pkg + "." + simpleName;
    assert IsPackageOf(pkg, name) by {
      assert name[..|pkg|] == pkg;
      assert name[|pkg| + 1..] == simpleName;
    }
    if securityManager.Some? {
      PackageOfUnique(name, pkg, CheckPackageAccess(name, securityManager).pkg);
    }
  }

  // ---------------------------------------------------------------------
  // getPermissions
  // ---------------------------------------------------------------------

  datatype Permission =
    | ReflectPermission(name: string)
    | RuntimePermission(name: string)

  const AccessClassInPackage: string := "accessClassInPackage."

  function AccessPermission(pkg: string): Permission
  {
    RuntimePermission(AccessClassInPackage + pkg)
  }

  /** The six permissions every generated script class receives. */
  const ScriptPermissions: seq<Permission> := [
    ReflectPermission("suppressAccessChecks"),
    AccessPermission(RuntimePkg),
    AccessPermission(RuntimeLinkerPkg),
    AccessPermission(ObjectsPkg),
    AccessPermission(ScriptsPkg),
    AccessPermission(RuntimeArraysPkg)
  ]

  /**
   `getPermissions(codesource)`: a fresh collection holding the script
   permissions, whatever the code source.
   */
  function GetPermissions<CodeSource>(codeSource: CodeSource): (perms: set<Permission>)
    ensures forall k :: 0 <= k < |ScriptPermissions| ==> ScriptPermissions[k] in perms
    ensures forall p :: p in perms ==> p in ScriptPermissions
  {
    set p | p in ScriptPermissions
  }

  /** Distinct packages give distinct permissions. */
  lemma AccessPermissionInjective(p: string, q: string)
    requires AccessPermission(p) == AccessPermission(q)
    ensures p == q
  {
    assert p == (AccessClassInPackage + p)[|AccessClassInPackage|..];
    assert q == (AccessClassInPackage + q)[|AccessClassInPackage|..];
  }

  /**
   The permissions grant package access to exactly the packages the access
   check exempts, and they do not depend on the code source.
   */
  lemma PermissionsMatchExemptions<CodeSource>(cs: CodeSource, pkg: string)
    ensures AccessPermission(pkg) in GetPermissions(cs) <==> pkg in ExemptPackages
  {
    if AccessPermission(pkg) in GetPermissions(cs) {
      var k :| 0 <= k < |ScriptPermissions| && ScriptPermissions[k] == AccessPermission(pkg);
      assert k != 0;
      if k == 1 { AccessPermissionInjective(pkg, RuntimePkg); }
      else if k == 2 { AccessPermissionInjective(pkg, RuntimeLinkerPkg); }
      else if k == 3 { AccessPermissionInjective(pkg, ObjectsPkg); }
      else if k == 4 { AccessPermissionInjective(pkg, ScriptsPkg); }
      else { AccessPermissionInjective(pkg, RuntimeArraysPkg); }
    } else {
      assert ScriptPermissions[1] == AccessPermission(RuntimePkg);
    }
  }

  // ---------------------------------------------------------------------
  // fileToURL and pathToURLs
  // ---------------------------------------------------------------------

  /**
   The arguments of `new URL(protocol, host, file)`. The third one is the
   URL's file part: `java.net.URL` itself later splits a `#` reference and a
   `?` query off it, and that parsing is not modelled.
   */
  datatype URL = URL(protocol: string, host: string, file: string)

  /** What the file system answers about one path component. */
  datatype FileFacts = FileFacts(
    canonicalPath: Option<string>, // `getCanonicalPath`, or `None` when it throws
    absolutePath: string,          // `getAbsolutePath`
    isFile: bool)                  // `isFile`

  /**
   `fileToURL(file)`: the canonical path (the absolute path when that fails)
   with every platform separator turned into `/`, a leading `/` added when
   missing, and a trailing `/` added when the file is not a regular file.
   The result is the file part handed to the `URL` constructor.
   */
  function FileToURL(f: FileFacts, separatorChar: char): (u: URL)
    ensures u.protocol == "file" && u.host == ""
    ensures |u.file| > 0 && u.file[0] == '/'
    ensures separatorChar != '/' ==> separatorChar !in u.file
    ensures !f.isFile ==> u.file[|u.file| - 1] == '/'
    ensures var name := Replace(FileName(f), separatorChar, '/');
      if f.isFile then u.file == name || u.file == "/" + name
      else u.file == name + "/" || u.file == "/" + name + "/"
    ensures var name := Replace(FileName(f), separatorChar, '/');
      StartsWith(name, "/") ==> StartsWith(u.file, name)
    ensures var name := Replace(FileName(f), separatorChar, '/');
      |u.file| == |name| + (if StartsWith(name, "/") then 0 else 1) + (if f.isFile then 0 else 1)
  {
    var name0 := FileName(f);
    var name1 := Replace(name0, separatorChar, '/');
    var name2 := if StartsWith(name1, "/") then name1 else "/" + name1;
    var name3 := if !f.isFile then name2 + "/" else name2;
    ReplaceKeepsNothingButTarget(name0, separatorChar);
    assert (name2 + "/")[..|name1|] == name2[..|name1|];
    URL("file", "", name3)
  }

  /** The name `fileToURL` starts from: the canonical path, or the absolute path when that fails. */
  function FileName(f: FileFacts): string
  {
    if f.canonicalPath.Some? then f.canonicalPath.value else f.absolutePath
  }

  /** When the separator is not `/`, none survives a replacement by `/`. */
  lemma ReplaceKeepsNothingButTarget(s: string, separatorChar: char)
    ensures separatorChar != '/' ==> separatorChar !in Replace(s, separatorChar, '/')
  {
    if separatorChar != '/' { ReplaceRemovesAll(s, separatorChar, '/'); }
  }

  /**
   The URL's file part is a fixed point: a regular file whose canonical path
   is already such a file part maps to the same URL again.
   */
  lemma FileToURLIdempotent(f: FileFacts, separatorChar: char, g: FileFacts)
    requires g.canonicalPath == Some(FileToURL(f, separatorChar).file) && g.isFile
    ensures FileToURL(g, separatorChar) == FileToURL(f, separatorChar)
  {
  }

  /**
   `pathToURLs(path)`: `path.split(File.pathSeparator)`, each component made
   a `File` and turned into a URL, in order. The file system is an oracle on
   the component text.
   */
  function PathToURLs(path: string, pathSeparator: char, separatorChar: char, fs: string -> FileFacts): (urls: seq<URL>)
    ensures |urls| == |Split(path, pathSeparator)|
    ensures forall k :: 0 <= k < |urls| ==> urls[k] == FileToURL(fs(Split(path, pathSeparator)[k]), separatorChar)
  {
    var components := Split(path, pathSeparator);
    seq(|components|, k requires 0 <= k < |components| => FileToURL(fs(components[k]), separatorChar))
  }

  /**
   The components behind the URLs, rejoined with the path separator, give
   back the class path without its trailing separators (`Strings.SplitJoin`);
   a path without a separator is one component, even when it is empty.
   */
  lemma SinglePathOneURL(path: string, pathSeparator: char, separatorChar: char, fs: string -> FileFacts)
    requires pathSeparator !in path
    ensures PathToURLs(path, pathSeparator, separatorChar, fs) == [FileToURL(fs(path), separatorChar)]
  {
  }
}
