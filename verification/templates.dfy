/**
  The file templates a new service starts from (`util/boilerplate.ts`):
  each is a list of lines joined with `\n`, interpolating the service name,
  its PascalCase form and, in the app template only, the port. Also
  `getBoilerplate`, which picks the template for a file suffix, and the
  `package.json` manifest, kept as a record (its JSON layout is not
  modelled).
*/
module Templates {
  import opened Wrappers
  import opened Text
  import opened Decimal
  import opened Names

  /** The identifier the router module declares and exports, and the app module imports. */
  function RouterId(provider: string): string
  {
    provider + "Router"
  }

  /** The interface the interface module exports and the model module imports. */
  function ModelInterfaceId(provider: string): string
  {
    provider + "ModelInterface"
  }

  /** The app template's log line, the only one that mentions the port. */
  function ListenLine(service: string, port: Port): string
  {
    ListenHead(service) + PortText(port) + ListenTail(service)
  }

  function ListenHead(service: string): string
  {
    "app.listen(process.env.PORT, ()=>console.log(\"" + service + " service is running on - http://localhost:"
  }

  function ListenTail(service: string): string
  {
    "/" + service + "\"))\n"
  }

  /** The module the app imports its router from, `<service>.router`, relative to `src/`. */
  function RouterModule(service: string): string
  {
    service + ".router"
  }

  /** The module the model imports its interface from, `<service>.interface`. */
  function InterfaceModule(service: string): string
  {
    service + ".interface"
  }

  /** `import <Provider>Router from "./<service>.router"`. */
  function RouterImport(service: string, provider: string): string
  {
    "import " + RouterId(provider) + " from \"./" + RouterModule(service) + "\""
  }

  /** `app.use("/<service>",<Provider>Router)`. */
  function RouterMount(service: string, provider: string): string
  {
    "app.use(\"/" + service + "\"," + RouterId(provider) + ")"
  }

  /** `const <Provider>Router = Router()`. */
  function RouterDeclaration(provider: string): string
  {
    "const " + RouterId(provider) + " = Router()"
  }

  /** `export default <Provider>Router;`. */
  function RouterExport(provider: string): string
  {
    "export default " + RouterId(provider) + ";"
  }

  /** `export interface <Provider>ModelInterface extends Document`. */
  function InterfaceDeclaration(provider: string): string
  {
    "export interface " + ModelInterfaceId(provider) + " extends Document"
  }

  /** `import { <Provider>ModelInterface } from "./<service>.interface"`. */
  function InterfaceImport(service: string, provider: string): string
  {
    "import { " + ModelInterfaceId(provider) + " } from \"./" + InterfaceModule(service) + "\""
  }

  /** `new Schema<<Provider>ModelInterface>`. */
  function SchemaOf(provider: string): string
  {
    "new Schema<" + ModelInterfaceId(provider) + ">"
  }

  /**
    The lines of `appBoilerplate`: the eleven lines before the listen line,
    the listen line, and the eight after it. Only the listen line depends
    on the port.
  */
  function AppLines(service: string, provider: string, port: Port): seq<string>
  {
    AppHead(service, provider) + [ListenLine(service, port)] + AppTail(service, provider)
  }

  function AppHead(service: string, provider: string): seq<string>
  {
    [ "import dotenv from \"dotenv\"",
      "dotenv.config()\n",
      "import mongoose from \"mongoose\"",
      "mongoose.connect(process.env.DB!)",
      ".then(()=>console.log(\"" + service + " - Database is running\"))",
      ".catch(()=>console.log(\"" + service + " - Failed to connect with database\"))\n",
      "import express, { Request, Response } from \"express\"",
      " " + RouterImport(service, provider),
      "import morgan from \"morgan\"",
      "import cors from \"cors\"",
      "const app = express()" ]
  }

  function AppTail(service: string, provider: string): seq<string>
  {
    [ "app.use(cors({",
      "\torigin: process.env.CLIENT,",
      "\tcredentials: true",
      "}))",
      "app.use(express.json())",
      "app.use(express.urlencoded({extended: false}))",
      "app.use(morgan('dev'))\n",
      RouterMount(service, provider) ]
  }

  function AppText(service: string, provider: string, port: Port): string
  {
    Join(AppLines(service, provider, port), NL)
  }

  /** `appBoilerplate(service, port)`; it throws where `getServiceInPascalCase` does. */
  function AppTemplate(service: string, port: Port): (r: Result<string, NameError>)
    ensures r.Ok? <==> WellHyphenated(service)
    ensures r.Err? ==> r.error == EmptySegment
  {
    PascalCaseDefinedIff(service);
    var provider :- PascalCase(service);
    Ok(AppText(service, provider, port))
  }

  function RouterLines(service: string, provider: string): seq<string>
  {
    [ "import {Router,Request,Response} from \"express\"",
      RouterDeclaration(provider) + "\n",
      RouterId(provider) + ".get(\"/\",(req:Request,res:Response)=>{",
      "\tres.json({message:\"Hello from " + service + " service\"})",
      "})\n",
      RouterExport(provider) ]
  }

  function RouterText(service: string, provider: string): string
  {
    Join(RouterLines(service, provider), NL)
  }

  /** `routerBoilerplate(service)`. */
  function RouterTemplate(service: string): (r: Result<string, NameError>)
    ensures r.Ok? <==> WellHyphenated(service)
    ensures r.Err? ==> r.error == EmptySegment
  {
    PascalCaseDefinedIff(service);
    var provider :- PascalCase(service);
    Ok(RouterText(service, provider))
  }

  function InterfaceLines(provider: string): seq<string>
  {
    [ "import { Document } from \"mongoose\";\n",
      InterfaceDeclaration(provider) + " {\n",
      "}" ]
  }

  function InterfaceText(provider: string): string
  {
    Join(InterfaceLines(provider), NL)
  }

  /** `interfaceBoilerplate(service)`. */
  function InterfaceTemplate(service: string): (r: Result<string, NameError>)
    ensures r.Ok? <==> WellHyphenated(service)
    ensures r.Err? ==> r.error == EmptySegment
  {
    PascalCaseDefinedIff(service);
    var provider :- PascalCase(service);
    Ok(InterfaceText(provider))
  }

  function ModelLines(service: string, provider: string): seq<string>
  {
    [ "import {Schema,model} from \"mongoose\"",
      InterfaceImport(service, provider) + "\n",
      "const schema = " + SchemaOf(provider) + "({\n",
      "\t",
      "},{timestamps:true})\n",
      "const " + provider + "Model = model<" + ModelInterfaceId(provider) + ">(\"" + provider + "\",schema)",
      "export default " + provider + "Model" ]
  }

  function ModelText(service: string, provider: string): string
  {
    Join(ModelLines(service, provider), NL)
  }

  /** `modelBoilerplate(service)`. */
  function ModelTemplate(service: string): (r: Result<string, NameError>)
    ensures r.Ok? <==> WellHyphenated(service)
    ensures r.Err? ==> r.error == EmptySegment
  {
    PascalCaseDefinedIff(service);
    var provider :- PascalCase(service);
    Ok(ModelText(service, provider))
  }

  /**
    `getBoilerplate(file, service)`: the router, interface and model
    suffixes get their template, every other suffix the empty text.
  */
  function GetBoilerplate(suffix: string, service: string): (r: Result<string, NameError>)
    ensures suffix !in {".router.ts", ".interface.ts", ".model.ts"} ==> r == Ok("")
    ensures r.Err? ==> suffix in {".router.ts", ".interface.ts", ".model.ts"} && !WellHyphenated(service)
  {
    PascalCaseDefinedIff(service);
    if suffix == ".router.ts" then RouterTemplate(service)
    else if suffix == ".interface.ts" then InterfaceTemplate(service)
    else if suffix == ".model.ts" then ModelTemplate(service)
    else Ok("")
  }

  // ---------------------------------------------------------------------
  // When the templates can be built
  // ---------------------------------------------------------------------

  /**
    Every template throws exactly when `getServiceInPascalCase` throws on
    the name, and with its error.
  */
  lemma TemplatesDefinedIff(service: string, port: Port)
    ensures AppTemplate(service, port).Ok? <==> PascalCase(service).Ok?
    ensures RouterTemplate(service).Ok? <==> PascalCase(service).Ok?
    ensures InterfaceTemplate(service).Ok? <==> PascalCase(service).Ok?
    ensures ModelTemplate(service).Ok? <==> PascalCase(service).Ok?
    ensures PascalCase(service).Err? ==>
      && AppTemplate(service, port).error == PascalCase(service).error
      && RouterTemplate(service).error == PascalCase(service).error
      && InterfaceTemplate(service).error == PascalCase(service).error
      && ModelTemplate(service).error == PascalCase(service).error
  {
    PascalCaseDefinedIff(service);
  }

  // ---------------------------------------------------------------------
  // Cross-file consistency
  // ---------------------------------------------------------------------

  lemma LineOccurs(lines: seq<string>, k: nat, sub: string)
    requires k < |lines| && Occurs(sub, lines[k])
    ensures Occurs(sub, Join(lines, NL))
  {
    JoinHasPiece(lines, k, NL);
    OccursTrans(sub, lines[k], Join(lines, NL));
  }

  lemma OccursWhole(sub: string)
    ensures Occurs(sub, sub)
  {
    assert sub[0..|sub|] == sub;
  }

  lemma OccursAfter(a: string, sub: string)
    ensures Occurs(sub, a + sub)
  {
    assert (a + sub)[|a|..|a| + |sub|] == sub;
  }

  lemma OccursBefore(sub: string, b: string)
    ensures Occurs(sub, sub + b)
  {
    assert (sub + b)[0..|sub|] == sub;
  }

  /**
    The app module imports, from `./<service>.router`, the very identifier
    the router module declares and default-exports, and mounts it at
    `/<service>`.
  */
  lemma RouterWiring(service: string, port: Port)
    requires WellHyphenated(service)
    ensures AppTemplate(service, port).Ok? && RouterTemplate(service).Ok?
    ensures var p := PascalCase(service).value;
            var app := AppTemplate(service, port).value;
            var router := RouterTemplate(service).value;
            && Occurs(RouterImport(service, p), app)
            && Occurs(RouterMount(service, p), app)
            && Occurs(RouterDeclaration(p), router)
            && Occurs(RouterExport(p), router)
  {
    PascalCaseDefinedIff(service);
    var p := PascalCase(service).value;
    assert AppTemplate(service, port) == Ok(AppText(service, p, port));
    assert RouterTemplate(service) == Ok(RouterText(service, p));
    AppMentionsRouter(service, p, port);
    RouterMentionsItself(service, p);
  }

  lemma AppMentionsRouter(service: string, p: string, port: Port)
    ensures Occurs(RouterImport(service, p), AppText(service, p, port))
    ensures Occurs(RouterMount(service, p), AppText(service, p, port))
  {
    var head, tail := AppHead(service, p), AppTail(service, p);
    var lines := AppLines(service, p, port);
    assert lines[7] == head[7] == " " + RouterImport(service, p);
    OccursAfter(" ", RouterImport(service, p));
    LineOccurs(lines, 7, RouterImport(service, p));
    assert lines[19] == tail[7] == RouterMount(service, p);
    OccursWhole(RouterMount(service, p));
    LineOccurs(lines, 19, RouterMount(service, p));
  }

  lemma RouterMentionsItself(service: string, p: string)
    ensures Occurs(RouterDeclaration(p), RouterText(service, p))
    ensures Occurs(RouterExport(p), RouterText(service, p))
  {
    var lines := RouterLines(service, p);
    assert lines[1] == RouterDeclaration(p) + "\n";
    OccursBefore(RouterDeclaration(p), "\n");
    LineOccurs(lines, 1, RouterDeclaration(p));
    assert lines[5] == RouterExport(p);
    OccursWhole(RouterExport(p));
    LineOccurs(lines, 5, RouterExport(p));
  }

  /**
    The model module imports, from `./<service>.interface`, the very
    interface the interface module exports, and types its schema with it.
  */
  lemma ModelWiring(service: string)
    requires WellHyphenated(service)
    ensures InterfaceTemplate(service).Ok? && ModelTemplate(service).Ok?
    ensures var p := PascalCase(service).value;
            var iface := InterfaceTemplate(service).value;
            var model := ModelTemplate(service).value;
            && Occurs(InterfaceDeclaration(p), iface)
            && Occurs(InterfaceImport(service, p), model)
            && Occurs(SchemaOf(p), model)
  {
    PascalCaseDefinedIff(service);
    var p := PascalCase(service).value;
    assert InterfaceTemplate(service) == Ok(InterfaceText(p));
    assert ModelTemplate(service) == Ok(ModelText(service, p));
    InterfaceMentionsItself(p);
    ModelMentionsInterface(service, p);
  }

  lemma InterfaceMentionsItself(p: string)
    ensures Occurs(InterfaceDeclaration(p), InterfaceText(p))
  {
    var lines := InterfaceLines(p);
    assert lines[1] == InterfaceDeclaration(p) + " {\n";
    OccursBefore(InterfaceDeclaration(p), " {\n");
    LineOccurs(lines, 1, InterfaceDeclaration(p));
  }

  lemma ModelMentionsInterface(service: string, p: string)
    ensures Occurs(InterfaceImport(service, p), ModelText(service, p))
    ensures Occurs(SchemaOf(p), ModelText(service, p))
  {
    var lines := ModelLines(service, p);
    assert lines[1] == InterfaceImport(service, p) + "\n";
    OccursBefore(InterfaceImport(service, p), "\n");
    LineOccurs(lines, 1, InterfaceImport(service, p));
    assert lines[2] == "const schema = " + SchemaOf(p) + "({\n";
    OccursInMiddle("const schema = ", SchemaOf(p), "({\n");
    LineOccurs(lines, 2, SchemaOf(p));
  }

  // ---------------------------------------------------------------------
  // The port only reaches the app template's listen line
  // ---------------------------------------------------------------------

  /** The app text around its listen line: the text before and after it does not mention the port. */
  lemma AppAroundListenLine(service: string, provider: string, port: Port)
    ensures AppText(service, provider, port)
         == Lead(AppHead(service, provider), NL) + ListenLine(service, port) + Trail(AppTail(service, provider), NL)
  {
    JoinSplice(AppHead(service, provider), ListenLine(service, port), AppTail(service, provider), NL);
  }

  /** Two app texts for the same names are equal exactly when the ports print the same. */
  lemma AppTextPort(service: string, provider: string, port: Port, other: Port)
    ensures AppText(service, provider, port) == AppText(service, provider, other) <==> PortText(port) == PortText(other)
  {
    AppAroundListenLine(service, provider, port);
    AppAroundListenLine(service, provider, other);
    var head, tail := Lead(AppHead(service, provider), NL), Trail(AppTail(service, provider), NL);
    if AppText(service, provider, port) == AppText(service, provider, other) {
      MiddleEqual(head, ListenLine(service, port), ListenLine(service, other), tail);
      MiddleEqual(ListenHead(service), PortText(port), PortText(other), ListenTail(service));
    }
  }

  /** Two app templates for the same service are equal exactly when the ports print the same. */
  lemma AppTemplatePort(service: string, port: Port, other: Port)
    requires WellHyphenated(service)
    ensures AppTemplate(service, port).Ok? && AppTemplate(service, other).Ok?
    ensures AppTemplate(service, port) == AppTemplate(service, other) <==> PortText(port) == PortText(other)
  {
    PascalCaseDefinedIff(service);
    var p := PascalCase(service).value;
    assert AppTemplate(service, port) == Ok(AppText(service, p, port));
    assert AppTemplate(service, other) == Ok(AppText(service, p, other));
    AppTextPort(service, p, port, other);
  }

  /** Equal texts with the same surroundings have the same middle. */
  lemma MiddleEqual(a: string, x: string, y: string, b: string)
    requires a + x + b == a + y + b
    ensures x == y
  {
    var s := a + x + b;
    assert |x| == |y|;
    assert x == s[|a|..|a| + |x|];
    assert y == (a + y + b)[|a|..|a| + |y|];
  }

  // ---------------------------------------------------------------------
  // package.json
  // ---------------------------------------------------------------------

  /** The fields of the manifest `packageBoilerplate` serialises; maps are kept as ordered key/value lists. */
  datatype Manifest = Manifest(
    name: string,
    version: string,
    description: string,
    main: string,
    scripts: seq<(string, string)>,
    keywords: seq<string>,
    author: string,
    license: string,
    dependencies: seq<(string, string)>,
    devDependencies: seq<(string, string)>)

  /** `packageBoilerplate(service)`: a fixed manifest whose `name` is the argument. */
  function PackageManifest(service: string): (r: Manifest)
    ensures r.name == service
  {
    Manifest(
      service, "1.0.0", "", "index.js",
      [ ("build", "tsc"),
        ("dev", "ts-node-dev --respawn --transpile-only src/app.ts"),
        ("start", "node dist/app.js") ],
      [], "", "ISC",
      [ ("cors", "^2.8.5"), ("dotenv", "^17.2.3"), ("express", "^5.1.0"),
        ("mongoose", "^9.0.0"), ("morgan", "^1.10.1") ],
      [ ("@types/cors", "^2.8.19"), ("@types/express", "^5.0.5"), ("@types/morgan", "^1.9.10"),
        ("@types/node", "^24.10.1"), ("ts-node-dev", "^2.0.0"), ("typescript", "^5.9.3") ])
  }

  /** Only the `name` field depends on the argument; two manifests agree on every other field. */
  lemma ManifestOnlyNameVaries(a: string, b: string)
    ensures PackageManifest(a).(name := b) == PackageManifest(b)
    ensures PackageManifest(a) == PackageManifest(b) <==> a == b
  {
  }
}
