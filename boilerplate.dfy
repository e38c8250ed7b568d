/**
 * The starter buffers of the default project (storage.js, getDefaultProject),
 * spelled line by line. Verbatim strings: a doubled quote stands for one
 * quote character.
 */
module Boilerplate {
  import Project

  const DefaultHtml: string :=
    @"<!DOCTYPE html>" + "\n"
    + @"<html lang=""en"">" + "\n"
    + @"<head>" + "\n"
    + @"    <meta charset=""UTF-8"">" + "\n"
    + @"    <meta name=""viewport"" content=""width=device-width, initial-scale=1.0"">" + "\n"
    + @"    <title>Welcome to Hafis Code Playground! 🚀</title>" + "\n"
    + @"    <link rel=""stylesheet"" href=""style.css"">" + "\n"
    + @"</head>" + "\n"
    + @"<body>" + "\n"
    + @"    <div class=""container"">" + "\n"
    + @"        <h1>Welcome to Hafis Code Playground! 🚀</h1>" + "\n"
    + @"        <p>Start coding and see your changes live!</p>" + "\n"
    + @"        <button onclick=""changeColor()"" class=""btn"">Change Color</button>" + "\n"
    + @"        <div id=""output""></div>" + "\n"
    + @"    </div>" + "\n"
    + @"    " + "\n"
    + @"    <script src=""script.js""></script>" + "\n"
    + @"</body>" + "\n"
    + @"</html>"

  const DefaultCss: string :=
    @"/* Hafis Code Playground - Default Styles */" + "\n"
    + @"" + "\n"
    + @"* {" + "\n"
    + @"    margin: 0;" + "\n"
    + @"    padding: 0;" + "\n"
    + @"    box-sizing: border-box;" + "\n"
    + @"}" + "\n"
    + @"" + "\n"
    + @"body {" + "\n"
    + @"    font-family: 'Inter', -apple-system, BlinkMacSystemFont, sans-serif;" + "\n"
    + @"    line-height: 1.6;" + "\n"
    + @"    color: #333;" + "\n"
    + @"    background: linear-gradient(135deg, #667eea 0%, #764ba2 100%);" + "\n"
    + @"    min-height: 100vh;" + "\n"
    + @"    display: flex;" + "\n"
    + @"    align-items: center;" + "\n"
    + @"    justify-content: center;" + "\n"
    + @"}" + "\n"
    + @"" + "\n"
    + @".container {" + "\n"
    + @"    background: white;" + "\n"
    + @"    padding: 2rem;" + "\n"
    + @"    border-radius: 15px;" + "\n"
    + @"    box-shadow: 0 20px 40px rgba(0,0,0,0.1);" + "\n"
    + @"    text-align: center;" + "\n"
    + @"    max-width: 500px;" + "\n"
    + @"    width: 90%;" + "\n"
    + @"}" + "\n"
    + @"" + "\n"
    + @"h1 {" + "\n"
    + @"    color: #4a5568;" + "\n"
    + @"    margin-bottom: 1rem;" + "\n"
    + @"    font-size: 2rem;" + "\n"
    + @"}" + "\n"
    + @"" + "\n"
    + @"p {" + "\n"
    + @"    color: #718096;" + "\n"
    + @"    margin-bottom: 2rem;" + "\n"
    + @"    font-size: 1.1rem;" + "\n"
    + @"}" + "\n"
    + @"" + "\n"
    + @".btn {" + "\n"
    + @"    background: linear-gradient(135deg, #667eea 0%, #764ba2 100%);" + "\n"
    + @"    color: white;" + "\n"
    + @"    border: none;" + "\n"
    + @"    padding: 12px 24px;" + "\n"
    + @"    border-radius: 8px;" + "\n"
    + @"    font-size: 1rem;" + "\n"
    + @"    cursor: pointer;" + "\n"
    + @"    transition: transform 0.2s ease, box-shadow 0.2s ease;" + "\n"
    + @"}" + "\n"
    + @"" + "\n"
    + @".btn:hover {" + "\n"
    + @"    transform: translateY(-2px);" + "\n"
    + @"    box-shadow: 0 8px 20px rgba(102, 126, 234, 0.4);" + "\n"
    + @"}" + "\n"
    + @"" + "\n"
    + @"#output {" + "\n"
    + @"    margin-top: 1rem;" + "\n"
    + @"    padding: 1rem;" + "\n"
    + @"    background: #f7fafc;" + "\n"
    + @"    border-radius: 8px;" + "\n"
    + @"    min-height: 50px;" + "\n"
    + @"    border-left: 4px solid #667eea;" + "\n"
    + @"}"

  const DefaultJs: string :=
    @"// Hafis Code Playground - Interactive JavaScript" + "\n"
    + @"" + "\n"
    + @"console.log('🚀 Welcome to Hafis Code Playground!');" + "\n"
    + @"" + "\n"
    + @"// Array of beautiful colors" + "\n"
    + @"const colors = [" + "\n"
    + @"    'linear-gradient(135deg, #667eea 0%, #764ba2 100%)'," + "\n"
    + @"    'linear-gradient(135deg, #f093fb 0%, #f5576c 100%)'," + "\n"
    + @"    'linear-gradient(135deg, #4facfe 0%, #00f2fe 100%)'," + "\n"
    + @"    'linear-gradient(135deg, #43e97b 0%, #38f9d7 100%)'," + "\n"
    + @"    'linear-gradient(135deg, #fa709a 0%, #fee140 100%)'," + "\n"
    + @"    'linear-gradient(135deg, #a8edea 0%, #fed6e3 100%)'," + "\n"
    + @"    'linear-gradient(135deg, #ff9a9e 0%, #fecfef 100%)'," + "\n"
    + @"    'linear-gradient(135deg, #ffecd2 0%, #fcb69f 100%)'" + "\n"
    + @"];" + "\n"
    + @"" + "\n"
    + @"let currentColorIndex = 0;" + "\n"
    + @"" + "\n"
    + @"function changeColor() {" + "\n"
    + @"    currentColorIndex = (currentColorIndex + 1) % colors.length;" + "\n"
    + @"    document.body.style.background = colors[currentColorIndex];" + "\n"
    + @"    " + "\n"
    + @"    const output = document.getElementById('output');" + "\n"
    + @"    output.innerHTML = `" + "\n"
    + @"        <h3>🎨 Color Changed!</h3>" + "\n"
    + @"        <p>Background updated to gradient #${currentColorIndex + 1}</p>" + "\n"
    + @"        <small>Keep clicking to cycle through more colors!</small>" + "\n"
    + @"    `;" + "\n"
    + @"    " + "\n"
    + @"    console.log(`Color changed to gradient #${currentColorIndex + 1}`);" + "\n"
    + @"}" + "\n"
    + @"" + "\n"
    + @"// Fun welcome message" + "\n"
    + @"function showWelcome() {" + "\n"
    + @"    const output = document.getElementById('output');" + "\n"
    + @"    output.innerHTML = `" + "\n"
    + @"        <h3>👋 Hello Developer!</h3>" + "\n"
    + @"        <p>You're using Hafis Code Playground</p>" + "\n"
    + @"        <small>Click the button above to see some magic! ✨</small>" + "\n"
    + @"    `;" + "\n"
    + @"}" + "\n"
    + @"" + "\n"
    + @"// Initialize" + "\n"
    + @"document.addEventListener('DOMContentLoaded', showWelcome);"

  /** The starter buffers getDefaultProject puts in every new project. */
  const Starter: Project.StarterBuffers := Project.Buffers(DefaultHtml, DefaultCss, DefaultJs)
}
